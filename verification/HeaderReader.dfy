/**
 * Reading the head of a generated program: the extensions it enables, the work-group size, the name and
 * the parameters of the kernel, its loop counter, and the function that numbers its work-items.
 */
module HeaderReader {
  import opened CStrings
  import opened KernelLanguage
  import opened Reading
  import opened Wrappers

  /** `__global <elements>* <name>`, or `const unsigned int <name>`. */
  datatype Parameter = Buffer(elements: string, name: string) | Count(name: string)

  /** gid is set from `workItem`(dimension). */
  datatype Header = Header(extensions: seq<string>, local: nat, name: string, parameters: seq<Parameter>,
                           counter: string, workItem: string, dimension: nat)

  /** What the head of a kernel of arith_speed has to say. */
  function HeaderOf(t: ElementType, local: nat): Header {
    var elements := match t case IntType => "int" case FloatType => "float" case DoubleType => "double";
    Header(if t == DoubleType then ["cl_khr_fp64", "cl_amd_fp64"] else [], local, "arith_speed",
           [Buffer(elements, "input"), Buffer(elements, "output"), Count("iterations")],
           "i", "get_global_id", 0)
  }

  // ---- reading -----------------------------------------------------------------------------------

  /** An extension that is enabled where the compiler knows it. */
  function ReadExtension(lines: seq<string>): (r: Option<(string, seq<string>)>)
    ensures r.Some? ==> |r.value.1| < |lines|
  {
    if |lines| < 3 || lines[2] != "#endif" then None
    else
      var name :- Expect(lines[0], "#ifdef ");
      var s1 :- Expect(lines[1], "#pragma OPENCL ");
      var s2 :- Expect(s1, "EXTENSION ");
      if s2 == name + " : enable" then Some((name, lines[3..])) else None
  }

  function ReadExtensions(lines: seq<string>): (seq<string>, seq<string>)
    decreases |lines|
  {
    match ReadExtension(lines)
    case None => ([], lines)
    case Some((name, rest)) =>
      var (names, more) := ReadExtensions(rest);
      ([name] + names, more)
  }

  function SkipBlank(lines: seq<string>): seq<string> {
    if lines != [] && lines[0] == "" then lines[1..] else lines
  }

  /** Three literals, a number, a literal, a name and a parenthesis. */
  function EntryWith(line: string, first: string, second: string, third: string, fourth: string): Option<(nat, string)>
  {
    var s1 :- Expect(line, first);
    var s2 :- Expect(s1, second);
    var s3 :- Expect(s2, third);
    var (n, s4) :- ReadNumber(s3);
    var s5 :- Expect(s4, fourth);
    var (name, rest) :- ReadName(s5);
    if rest == "(" then Some((n, name)) else None
  }

  /** The work-group size and the name of the kernel. */
  function ReadEntry(line: string): Option<(nat, string)> {
    EntryWith(line, "__kernel ", "__attribute__((", "reqd_work_group_size (", ",1,1))) void ")
  }

  /** The type of the elements and the name of a buffer. */
  function ReadBuffer(s: string, end: string): Option<Parameter> {
    var (elements, s1) :- ReadName(s);
    var s2 :- Expect(s1, "* ");
    var (name, rest) :- ReadName(s2);
    if rest == end then Some(Buffer(elements, name)) else None
  }

  function ReadCount(s: string, end: string): Option<Parameter> {
    var (name, rest) :- ReadName(s);
    if rest == end then Some(Count(name)) else None
  }

  function ReadParameter(line: string, end: string): Option<Parameter> {
    var s :- Expect(line, " \t            ");
    if "__global " <= s then ReadBuffer(s[9..], end)
    else
      var s1 :- Expect(s, "const unsigned int ");
      ReadCount(s1, end)
  }

  /** A private counter without a value. */
  function ReadCounter(line: string): Option<string> {
    var s1 :- Expect(line, "   unsigned int ");
    var (name, rest) :- ReadName(s1);
    if rest == "; " then Some(name) else None
  }

  /** The function, and its argument, that gives gid its value. */
  function ReadGid(line: string): Option<(string, nat)> {
    var s1 :- Expect(line, "   unsigned int gid = ");
    var (name, s2) :- ReadName(s1);
    var s3 :- Expect(s2, "(");
    var (dimension, rest) :- ReadNumber(s3);
    if rest == ");" then Some((name, dimension)) else None
  }

  /** The three parameters, if all could be read. */
  function Three(first: Option<Parameter>, second: Option<Parameter>, third: Option<Parameter>)
    : Option<seq<Parameter>>
  {
    if first.None? || second.None? || third.None? then None else Some([first.value, second.value, third.value])
  }

  function ReadParameters(lines: seq<string>): Option<seq<Parameter>>
    requires |lines| >= 7
  {
    Three(ReadParameter(lines[1], ", "), ReadParameter(lines[2], ", "), ReadParameter(lines[3], ") "))
  }

  /** The head, if all its parts could be read. */
  function MakeHeader(extensions: seq<string>, entry: Option<(nat, string)>, parameters: Option<seq<Parameter>>,
                      counter: Option<string>, gid: Option<(string, nat)>): Option<Header>
  {
    if entry.None? || parameters.None? || counter.None? || gid.None? then None
    else
      Some(Header(extensions, entry.value.0, entry.value.1, parameters.value, counter.value,
                  gid.value.0, gid.value.1))
  }

  function ReadSignature(extensions: seq<string>, lines: seq<string>): (header: Option<Header>)
    ensures header.Some? ==> |lines| >= 7
  {
    if |lines| < 7 || lines[4] != " { " then None
    else MakeHeader(extensions, ReadEntry(lines[0]), ReadParameters(lines), ReadCounter(lines[5]), ReadGid(lines[6]))
  }

  /** The head of a program, and the lines behind it. */
  function ReadHeader(lines: seq<string>): Option<(Header, seq<string>)> {
    var (extensions, rest) := ReadExtensions(lines);
    var signature := SkipBlank(rest);
    var header :- ReadSignature(extensions, signature);
    Some((header, signature[7..]))
  }

  // ---- reading undoes printing -------------------------------------------------------------------

  lemma EntryPieces(local: string)
    ensures "__kernel __attribute__((" + "reqd_work_group_size (" + local + ",1,1))) void arith_speed("
            == "__kernel " + ("__attribute__((" + ("reqd_work_group_size ("
               + (local + (",1,1))) void " + ("arith_speed" + "(")))))
  {
    assert "__kernel __attribute__((" == "__kernel " + "__attribute__((";
    assert ",1,1))) void arith_speed(" == ",1,1))) void " + ("arith_speed" + "(");
  }

  lemma EntryWithRead(first: string, second: string, third: string, n: nat, fourth: string, name: string)
    requires fourth != "" && !IsDigit(fourth[0]) && IsName(name)
    ensures EntryWith(first + (second + (third + (Decimal(n) + (fourth + (name + "("))))),
                      first, second, third, fourth) == Some((n, name))
  {
    var s4 := fourth + (name + "(");
    var s3 := Decimal(n) + s4;
    ExpectLiteral(first, second + (third + s3));
    ExpectLiteral(second, third + s3);
    ExpectLiteral(third, s3);
    ReadDecimal(n, s4);
    ExpectLiteral(fourth, name + "(");
    ReadNameOf(name, "(");
  }

  lemma EntryRead(t: ElementType, local: nat)
    ensures ReadEntry(SignatureLines(t, local)[0]) == Some((local, "arith_speed"))
  {
    EntryPieces(Decimal(local));
    EntryWithRead("__kernel ", "__attribute__((", "reqd_work_group_size (", local, ",1,1))) void ", "arith_speed");
  }

  lemma BufferPartRead(elements: string, name: string, end: string)
    requires IsName(elements) && IsName(name) && end != "" && !NameChar(end[0])
    ensures ReadBuffer(elements + ("* " + (name + end)), end) == Some(Buffer(elements, name))
  {
    ReadNameOf(elements, "* " + (name + end));
    ExpectLiteral("* ", name + end);
    ReadNameOf(name, end);
  }

  lemma BufferPieces(elements: string, name: string, close: string)
    requires close == "* " + name + ", "
    ensures " \t            __global " + elements + close
            == " \t            " + ("__global " + (elements + ("* " + (name + ", "))))
  {
    assert " \t            __global " == " \t            " + "__global ";
  }

  lemma BufferRead(elements: string, name: string, close: string)
    requires IsName(elements) && IsName(name) && close == "* " + name + ", "
    ensures ReadParameter(" \t            __global " + elements + close, ", ") == Some(Buffer(elements, name))
  {
    var s := elements + ("* " + (name + ", "));
    BufferPieces(elements, name, close);
    BufferPartRead(elements, name, ", ");
    ExpectLiteral(" \t            ", "__global " + s);
    ExpectLiteral("__global ", s);
  }

  lemma CountRead()
    ensures ReadParameter(" \t            const " + "unsigned int iterations) ", ") ") == Some(Count("iterations"))
  {
    var s1 := "const unsigned int " + ("iterations" + ") ");
    assert " \t            const " == " \t            " + "const ";
    assert "unsigned int iterations) " == "unsigned int " + ("iterations" + ") ");
    assert "const unsigned int " == "const " + "unsigned int ";
    assert " \t            const " + "unsigned int iterations) " == " \t            " + s1;
    ExpectLiteral(" \t            ", s1);
    assert s1[0] == 'c' && "__global "[0] == '_';
    ExpectLiteral("const unsigned int ", "iterations" + ") ");
    ReadNameOf("iterations", ") ");
  }

  lemma CounterRead()
    ensures ReadCounter("   unsigned int i; ") == Some("i")
  {
    assert "   unsigned int i; " == "   unsigned int " + ("i" + "; ");
    ExpectLiteral("   unsigned int ", "i" + "; ");
    ReadNameOf("i", "; ");
  }

  lemma GidRead()
    ensures ReadGid(GID_LINE) == Some(("get_global_id", 0))
  {
    var s3 := Decimal(0) + ");";
    assert Decimal(0) == "0";
    assert "   unsigned int gid" + " = get_global_id(0);"
           == "   unsigned int gid = " + ("get_global_id" + ("(" + s3));
    ExpectLiteral("   unsigned int gid = ", "get_global_id" + ("(" + s3));
    ReadNameOf("get_global_id", "(" + s3);
    ExpectLiteral("(", s3);
    ReadDecimal(0, ");");
  }

  lemma NamesRead(t: ElementType)
    ensures IsName(TypeName(t)) && IsName("input") && IsName("output")
    ensures "* input, " == "* " + "input" + ", " && "* output, " == "* " + "output" + ", "
  {
  }

  /** Three lines that are read as these parameters. */
  lemma ThreeRead(t: ElementType, local: nat, lines: seq<string>)
    requires |lines| >= 7 && lines[..6] == SignatureLines(t, local)
    ensures ReadParameters(lines) == Some(HeaderOf(t, local).parameters)
  {
    NamesRead(t);
    BufferRead(TypeName(t), "input", "* input, ");
    BufferRead(TypeName(t), "output", "* output, ");
    CountRead();
    assert lines[1] == lines[..6][1] && lines[2] == lines[..6][2] && lines[3] == lines[..6][3];
  }

  lemma OtherLinesRead(t: ElementType, local: nat, lines: seq<string>)
    requires |lines| >= 7 && lines[..6] == SignatureLines(t, local)
    ensures ReadEntry(lines[0]) == Some((local, "arith_speed"))
    ensures lines[4] == " { " && ReadCounter(lines[5]) == Some("i")
  {
    EntryRead(t, local);
    CounterRead();
    assert lines[0] == lines[..6][0] && lines[4] == lines[..6][4] && lines[5] == lines[..6][5];
  }

  lemma SignatureRead(t: ElementType, local: nat, lines: seq<string>)
    requires |lines| >= 7 && lines[..6] == SignatureLines(t, local) && lines[6] == GID_LINE
    ensures ReadSignature(HeaderOf(t, local).extensions, lines) == Some(HeaderOf(t, local))
  {
    OtherLinesRead(t, local, lines);
    ThreeRead(t, local, lines);
    GidRead();
  }

  lemma ExtensionRead(name: string, rest: seq<string>)
    ensures ReadExtension(EnableLines(name) + rest) == Some((name, rest))
  {
    var lines := EnableLines(name) + rest;
    ExpectLiteral("#ifdef ", name);
    assert "#pragma OPENCL EXTENSION " == "#pragma OPENCL " + "EXTENSION ";
    assert lines[1] == "#pragma OPENCL " + ("EXTENSION " + (name + " : enable"));
    ExpectLiteral("#pragma OPENCL ", "EXTENSION " + (name + " : enable"));
    ExpectLiteral("EXTENSION ", name + " : enable");
    assert lines[3..] == rest;
  }

  /** Extensions are read up to a line that does not begin like one. */
  lemma ExtensionsEnd(lines: seq<string>)
    requires lines != [] && (lines[0] == "" || lines[0][0] != '#')
    ensures ReadExtensions(lines) == ([], lines)
  {
    assert "#ifdef "[0] == '#';
  }

  lemma ExtensionsMore(name: string, rest: seq<string>, names: seq<string>, more: seq<string>)
    requires ReadExtensions(rest) == (names, more)
    ensures ReadExtensions(EnableLines(name) + rest) == ([name] + names, more)
  {
    ExtensionRead(name, rest);
  }

  lemma PreamblePieces(first: seq<string>, second: seq<string>, rest: seq<string>)
    ensures first + second + [""] + rest == first + (second + ([""] + rest))
  {
    Assoc(first + second, [""], rest);
    Assoc(first, second, [""] + rest);
  }

  lemma DoublePreamble(rest: seq<string>)
    ensures ReadExtensions(PreambleLines(DoubleType) + rest) == (["cl_khr_fp64", "cl_amd_fp64"], [""] + rest)
  {
    var second := EnableLines("cl_amd_fp64") + ([""] + rest);
    PreamblePieces(EnableLines("cl_khr_fp64"), EnableLines("cl_amd_fp64"), rest);
    ExtensionsEnd([""] + rest);
    ExtensionsMore("cl_amd_fp64", [""] + rest, [], [""] + rest);
    assert ["cl_amd_fp64"] + [] == ["cl_amd_fp64"];
    ExtensionsMore("cl_khr_fp64", second, ["cl_amd_fp64"], [""] + rest);
    assert ["cl_khr_fp64"] + ["cl_amd_fp64"] == ["cl_khr_fp64", "cl_amd_fp64"];
  }

  function HeaderLines(t: ElementType, local: nat): seq<string> {
    PreambleLines(t) + SignatureLines(t, local)
  }

  lemma FirstLineStart(t: ElementType, local: nat)
    ensures SignatureLines(t, local)[0] != "" && SignatureLines(t, local)[0][0] == '_'
  {
    assert "__kernel __attribute__(("[0] == '_';
  }

  /** The extensions, if there are any, and what SignatureRead reads. */
  lemma PreambleRead(t: ElementType, local: nat, signature: seq<string>)
    requires |signature| >= 7 && signature[0] == SignatureLines(t, local)[0]
    ensures var (extensions, more) := ReadExtensions(PreambleLines(t) + signature);
            extensions == HeaderOf(t, local).extensions && SkipBlank(more) == signature
  {
    FirstLineStart(t, local);
    if t == DoubleType {
      DoublePreamble(signature);
    } else {
      assert PreambleLines(t) + signature == signature;
      ExtensionsEnd(signature);
    }
  }

  lemma HeaderParts(lines: seq<string>, signature: seq<string>, h: Header)
    requires var (extensions, more) := ReadExtensions(lines);
             extensions == h.extensions && SkipBlank(more) == signature
    requires ReadSignature(h.extensions, signature) == Some(h)
    ensures ReadHeader(lines) == Some((h, signature[7..]))
  {
  }

  lemma HeadPieces(preamble: seq<string>, signature: seq<string>, line: string, rest: seq<string>)
    ensures preamble + signature + [line] + rest == preamble + (signature + [line] + rest)
  {
    Assoc(preamble + signature, [line], rest);
    Assoc(preamble, signature, [line] + rest);
    Assoc(signature, [line], rest);
  }

  lemma SignatureParts(signature: seq<string>, line: string, rest: seq<string>)
    requires |signature| == 6
    ensures var lines := signature + [line] + rest;
            lines[..6] == signature && lines[0] == signature[0] && lines[6] == line && lines[7..] == rest
  {
  }

  /** The head reads back, and the lines behind it are left. */
  lemma HeaderRead(t: ElementType, local: nat, rest: seq<string>)
    ensures ReadHeader(HeaderLines(t, local) + [GID_LINE] + rest) == Some((HeaderOf(t, local), rest))
  {
    var signature := SignatureLines(t, local) + [GID_LINE] + rest;
    SignatureParts(SignatureLines(t, local), GID_LINE, rest);
    PreambleRead(t, local, signature);
    SignatureRead(t, local, signature);
    HeaderParts(PreambleLines(t) + signature, signature, HeaderOf(t, local));
    HeadPieces(PreambleLines(t), SignatureLines(t, local), GID_LINE, rest);
  }

  // ---- the head consists of lines ----------------------------------------------------------------

  lemma EnableIsLines(name: string)
    requires IsLine(name)
    ensures forall k :: 0 <= k < 3 ==> IsLine(EnableLines(name)[k])
  {
    assert IsLine("#ifdef ") && IsLine("#pragma OPENCL EXTENSION ") && IsLine(" : enable") && IsLine("#endif");
  }

  lemma ThreeAreLine(x: string, y: string, z: string)
    requires IsLine(x) && IsLine(y) && IsLine(z)
    ensures IsLine(x + y + z)
  {
  }

  lemma EntryIsLine(local: nat)
    ensures IsLine("__kernel __attribute__((" + "reqd_work_group_size (" + Decimal(local)
                   + ",1,1))) void arith_speed(")
  {
    ThreeAreLine("__kernel __attribute__((", "reqd_work_group_size (", Decimal(local));
    assert IsLine(",1,1))) void arith_speed(");
  }

  lemma SignatureIsLines(t: ElementType, local: nat)
    ensures forall k :: 0 <= k < |SignatureLines(t, local)| ==> IsLine(SignatureLines(t, local)[k])
  {
    EntryIsLine(local);
    assert IsLine(" \t            __global ") && IsLine("* input, ") && IsLine("* output, ");
    ThreeAreLine(" \t            __global ", TypeName(t), "* input, ");
    ThreeAreLine(" \t            __global ", TypeName(t), "* output, ");
    ThreeAreLine(" \t            const ", "unsigned int iterations) ", "");
    assert " \t            const " + "unsigned int iterations) " + ""
           == " \t            const " + "unsigned int iterations) ";
  }

  lemma HeaderIsLines(t: ElementType, local: nat)
    ensures IsLine(GID_LINE)
    ensures forall k :: 0 <= k < |HeaderLines(t, local)| ==> IsLine(HeaderLines(t, local)[k])
  {
    assert IsLine("   unsigned int gid") && IsLine(" = get_global_id(0);");
    SignatureIsLines(t, local);
    EnableIsLines("cl_khr_fp64");
    EnableIsLines("cl_amd_fp64");
  }
}
