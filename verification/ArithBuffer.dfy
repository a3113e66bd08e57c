/** The kernel text fits the buffer that genKernel allocates. */
module ArithBuffer {
  import opened ArithCode
  import opened ArithGenerator
  import opened ArithSpeed
  import opened CStrings
  import opened HeaderReader
  import opened KernelLanguage
  import opened KernelReader
  import opened Reading
  import opened Wrappers

  /** genKernel: malloc(131072 * sizeof(char)) */
  const BUFFER_SIZE: nat := 131072

  lemma HeaderBound(t: ElementType, local: nat)
    requires local < 0x8000_0000
    ensures |HeaderText(t, local)| <= 90 * 14
  {
    TenDigits(local);
    UnlinesBound(PreambleLines(t) + SignatureLines(t, local) + [GID_LINE], 90);
  }

  lemma {:induction false} InputListBound(first: nat, n: nat)
    requires first + n < 100
    ensures |InputList(first, n)| <= 11 * n
  {
    if n > 1 {
      InputListBound(first, n - 1);
      TwoDigits(first + n - 1);
    } else {
      TwoDigits(first);
    }
  }

  /** The variable has a short name, and the inputs have two digits. */
  ghost predicate ShortDecl(d: Decl) {
    match d
    case Gather(v, first) => first <= 16 && |VarText(v)| <= 4
    case Pair(i, second) => i < 100 && second < 100
    case Temporary(v) => |VarText(v)| <= 4
  }

  lemma DeclsAreShort(f: Function, vec: nat)
    requires vec <= 16
    ensures |DeclsOf(f, vec)| <= 16 && forall k :: 0 <= k < |DeclsOf(f, vec)| ==> ShortDecl(DeclsOf(f, vec)[k])
  {
    PairDeclsAt(vec, vec);
  }

  lemma DeclBound(d: Decl, ty: string, vec: nat)
    requires |ty| <= 8 && vec <= 16 && ShortDecl(d)
    ensures |DeclText(d, ty, vec)| <= 220
  {
    match d
    case Gather(_, first) => InputListBound(first, vec);
    case Pair(i, second) =>
      TwoDigits(i);
      TwoDigits(second);
    case Temporary(_) =>
  }

  lemma {:induction false} DeclsBound(ds: seq<Decl>, ty: string, vec: nat)
    requires forall k :: 0 <= k < |ds| ==> |DeclText(ds[k], ty, vec)| <= 220
    ensures |DeclsText(ds, ty, vec)| <= 220 * |ds|
    decreases |ds|
  {
    if ds != [] {
      DeclsBound(ds[..|ds| - 1], ty, vec);
    }
  }

  lemma AllDeclsBound(f: Function, ty: string, vec: nat)
    requires |ty| <= 8 && vec <= 16
    ensures |DeclsText(DeclsOf(f, vec), ty, vec)| <= 220 * 16
  {
    DeclsAreShort(f, vec);
    forall k | 0 <= k < |DeclsOf(f, vec)|
      ensures |DeclText(DeclsOf(f, vec)[k], ty, vec)| <= 220
    {
      DeclBound(DeclsOf(f, vec)[k], ty, vec);
    }
    DeclsBound(DeclsOf(f, vec), ty, vec);
  }

  lemma PieceBound(f: Function, vec: nat, r: nat, i: nat)
    requires i < 100
    ensures |Pieces(f, vec, r)(i)| <= 14
  {
    TwoDigits(i);
  }

  lemma RowBound(f: Function, native: bool, vec: nat, r: nat, ty: string)
    requires |ty| <= 8 && vec <= 16
    ensures |RowLine(RowCode(f, native, vec, r, ty))| <= 14 * 16 + 5
  {
    if PerElement(f) {
      forall i: nat | i < vec
        ensures |Pieces(f, vec, r)(i)| <= 14
      {
        PieceBound(f, vec, r, i);
      }
      JoinBound(Pieces(f, vec, r), vec, 14);
    } else {
      CodeBound(f, native, ty);
    }
  }

  /** genKernel: char fctStr[512], which VLIW fills with the format string instead. */
  lemma ScratchFits(f: Function, native: bool, vec: nat, r: nat, ty: string)
    requires |ty| <= 8 && vec <= 16
    ensures |RowCode(f, native, vec, r, ty)| < 512
  {
    RowBound(f, native, vec, r, ty);
  }

  lemma CodeBound(f: Function, native: bool, ty: string)
    requires |ty| <= 8 && !PerElement(f)
    ensures |FunctionToCode(f, native, ty).0.text| <= 100
  {
  }

  lemma OutputBound(f: Function, vec: nat, i: nat)
    requires vec <= 16 && i < vec
    ensures |PrintedOutputs(f, vec)(i)| <= 60
  {
    TwoDigits(vec);
    TwoDigits(i);
    var ts := OutputOf(f, vec, i).terms;
    assert forall k :: 0 <= k < |ts| ==> |TermText(ts[k])| <= 6;
    if f == MadMul {
      assert ts[..1] == [ts[0]];
      assert TermsText(ts) == TermText(ts[0]) + " + " + TermText(ts[1]);
    }
    assert |TermsText(ts)| <= 15;
  }

  lemma RowsBound(f: Function, native: bool, vec: nat, unroll: nat, ty: string)
    requires |ty| <= 8 && vec <= 16 && unroll <= 100
    ensures |RowsText(RowsOf(f, native, vec, unroll), ty)| <= 229 * 100
  {
    forall r: nat | r < unroll
      ensures |PrintedRows(f, native, vec, ty)(r)| <= 229
    {
      RowBound(f, native, vec, r, ty);
    }
    LinesText(f, native, vec, unroll, ty);
    JoinBound(PrintedRows(f, native, vec, ty), unroll, 229);
  }

  lemma OutputsBound(f: Function, vec: nat)
    requires 0 < vec <= 16
    ensures |OutputsText(OutputsOf(f, vec, vec), vec)| <= 60 * 16
  {
    forall i: nat | i < vec
      ensures |PrintedOutputs(f, vec)(i)| <= 60
    {
      OutputBound(f, vec, i);
    }
    AllOutputs(f, vec);
    JoinBound(PrintedOutputs(f, vec), vec, 60);
  }

  lemma TypeBound(f: Function, t: ElementType, vec: nat)
    requires PrivateType(f, t, vec).Some?
    ensures |PrivateType(f, t, vec).value| <= 8
  {
  }

  /** genKernel: char type[8], which holds the type name and its terminator unless that is `double16`. */
  lemma TypeFitsIff(f: Function, t: ElementType, vec: nat)
    requires PrivateType(f, t, vec).Some?
    ensures |PrivateType(f, t, vec).value| + 1 <= 8 <==> !(t == DoubleType && vec == 16 && !PerElement(f))
  {
    assert |Decimal(2)| == |Decimal(4)| == |Decimal(8)| == 1;
    assert Decimal(16) == Decimal(1) + [Digit(6)] && |Decimal(1)| == 1;
  }

  /** For at most 16 lanes and 100 rows the program is shorter than the buffer. */
  lemma ProgramFits(f: Function, native: bool, t: ElementType, vec: nat, local: nat, unroll: nat)
    requires 0 < vec <= 16 && unroll <= 100 && local < 0x8000_0000 && PrivateType(f, t, vec).Some?
    ensures |ProgramText(f, native, t, vec, local, unroll, PrivateType(f, t, vec).value)| < BUFFER_SIZE
  {
    var ty := PrivateType(f, t, vec).value;
    TypeBound(f, t, vec);
    HeaderBound(t, local);
    AllDeclsBound(f, ty, vec);
    RowsBound(f, native, vec, unroll, ty);
    OutputsBound(f, vec);
    ProgramLength(HeaderText(t, local), DeclsText(DeclsOf(f, vec), ty, vec),
                  RowsText(RowsOf(f, native, vec, unroll), ty), OutputsText(OutputsOf(f, vec, vec), vec));
  }

  /** genKernel with the buffer it allocates, for the widths and unroll factors the benchmark uses. */
  method BuildProgram(f: Function, native: bool, t: ElementType, vec: nat, local: nat, unroll: nat)
    returns (program: Option<string>)
    requires 0 < vec <= 16 && unroll <= 100 && local < 0x8000_0000
    ensures program.None? <==> !PerElement(f) && (if t == IntType then vec != 1 else vec !in {1, 2, 4, 8, 16})
    ensures program.Some? ==>
              program.value == ProgramText(f, native, t, vec, local, unroll, PrivateType(f, t, vec).value)
    ensures program.Some? ==>
              ReadProgram(program.value, PrivateType(f, t, vec).value, vec)
              == Some((HeaderOf(t, local), MakeKernel(f, native, vec, unroll)))
  {
    if PrivateType(f, t, vec).Some? {
      ProgramFits(f, native, t, vec, local, unroll);
    }
    program := GenKernel(f, native, t, vec, local, unroll, BUFFER_SIZE);
  }
}
