/** Reading text: literals, numbers, names and lines, each undoing how it is written. */
module Reading {
  import opened CStrings
  import opened Wrappers

  /** The text after a literal, if the text starts with it. */
  function Expect(s: string, literal: string): (r: Option<string>)
    ensures r.Some? ==> |r.value| == |s| - |literal|
  {
    if literal <= s then Some(s[|literal|..]) else None
  }

  /** How many leading characters satisfy p. */
  function Leading(p: char -> bool, s: string): (n: nat)
    ensures n <= |s| && (forall k :: 0 <= k < n ==> p(s[k])) && (n < |s| ==> !p(s[n]))
  {
    if s == "" || !p(s[0]) then 0 else 1 + Leading(p, s[1..])
  }

  function ReadNumber(s: string): (r: Option<(nat, string)>)
    ensures r.Some? ==> |r.value.1| < |s|
  {
    var n := Leading(IsDigit, s);
    if n == 0 then None else Some((Value(s[..n]), s[n..]))
  }

  predicate NameChar(c: char) {
    'a' <= c <= 'z' || 'A' <= c <= 'Z' || IsDigit(c) || c == '_'
  }

  predicate IsName(s: string) {
    s != "" && forall k :: 0 <= k < |s| ==> NameChar(s[k])
  }

  function ReadName(s: string): (r: Option<(string, string)>)
    ensures r.Some? ==> |r.value.1| < |s|
  {
    var n := Leading(NameChar, s);
    if n == 0 then None else Some((s[..n], s[n..]))
  }

  // ---- reading undoes writing ----------------------------------------------------------------

  lemma ExpectLiteral(literal: string, rest: string)
    ensures Expect(literal + rest, literal) == Some(rest)
  {
    assert (literal + rest)[..|literal|] == literal;
    assert (literal + rest)[|literal|..] == rest;
  }

  lemma {:induction false} LeadingOf(p: char -> bool, word: string, rest: string)
    requires (forall k :: 0 <= k < |word| ==> p(word[k])) && (rest == "" || !p(rest[0]))
    ensures Leading(p, word + rest) == |word|
  {
    if word == "" {
      assert word + rest == rest;
    } else {
      assert (word + rest)[1..] == word[1..] + rest;
      LeadingOf(p, word[1..], rest);
    }
  }

  lemma ReadDecimal(n: nat, rest: string)
    requires rest == "" || !IsDigit(rest[0])
    ensures ReadNumber(Decimal(n) + rest) == Some((n, rest))
  {
    LeadingOf(IsDigit, Decimal(n), rest);
    DecimalValue(n);
    assert (Decimal(n) + rest)[..|Decimal(n)|] == Decimal(n);
    assert (Decimal(n) + rest)[|Decimal(n)|..] == rest;
  }

  lemma ReadNameOf(name: string, rest: string)
    requires IsName(name) && (rest == "" || !NameChar(rest[0]))
    ensures ReadName(name + rest) == Some((name, rest))
  {
    LeadingOf(NameChar, name, rest);
    assert (name + rest)[..|name|] == name;
    assert (name + rest)[|name|..] == rest;
  }

  // ---- lines -----------------------------------------------------------------------------------

  predicate IsLine(s: string) {
    '\n' !in s
  }

  /** The lines of a text, without the characters that end them. */
  function Lines(s: string): seq<string> {
    if s == "" then []
    else
      var n := Find(s, '\n');
      if n < |s| then [s[..n]] + Lines(s[n + 1..]) else [s]
  }

  /** Lines, each with the character that ends it, followed by some more text. */
  function Unlines(lines: seq<string>, rest: string): string {
    if lines == [] then rest else lines[0] + ("\n" + Unlines(lines[1..], rest))
  }

  lemma {:induction false} FindAfterLine(line: string, rest: string)
    requires IsLine(line)
    ensures Find(line + ("\n" + rest), '\n') == |line|
  {
    if line != "" {
      assert (line + ("\n" + rest))[1..] == line[1..] + ("\n" + rest);
      FindAfterLine(line[1..], rest);
    }
  }

  lemma FirstLine(line: string, rest: string)
    requires IsLine(line)
    ensures Lines(line + ("\n" + rest)) == [line] + Lines(rest)
  {
    var s := line + ("\n" + rest);
    FindAfterLine(line, rest);
    assert s[..|line|] == line;
    assert s[|line| + 1..] == rest;
  }

  lemma {:induction false} LinesOf(lines: seq<string>)
    requires forall k :: 0 <= k < |lines| ==> IsLine(lines[k])
    ensures Lines(Unlines(lines, "")) == lines
  {
    if lines != [] {
      LinesOf(lines[1..]);
      FirstLine(lines[0], Unlines(lines[1..], ""));
    }
  }

  lemma {:induction false} UnlinesAppend(lines: seq<string>, more: seq<string>, rest: string)
    ensures Unlines(lines + more, rest) == Unlines(lines, Unlines(more, rest))
  {
    if lines == [] {
      assert lines + more == more;
    } else {
      assert (lines + more)[1..] == lines[1..] + more;
      UnlinesAppend(lines[1..], more, rest);
    }
  }

  lemma {:induction false} UnlinesRest(lines: seq<string>, rest: string)
    ensures Unlines(lines, rest) == Unlines(lines, "") + rest
  {
    if lines != [] {
      UnlinesRest(lines[1..], rest);
      Assoc("\n", Unlines(lines[1..], ""), rest);
      Assoc(lines[0], "\n" + Unlines(lines[1..], ""), rest);
    }
  }

  lemma {:induction false} UnlinesBound(lines: seq<string>, each: nat)
    requires forall k :: 0 <= k < |lines| ==> |lines[k]| < each
    ensures |Unlines(lines, "")| <= each * |lines|
  {
    if lines != [] {
      UnlinesBound(lines[1..], each);
    }
  }

  lemma {:induction false} UnlinesCString(lines: seq<string>)
    requires forall k :: 0 <= k < |lines| ==> CString(lines[k])
    ensures CString(Unlines(lines, ""))
  {
    if lines != [] {
      UnlinesCString(lines[1..]);
    }
  }

  /** Pieces that are lines, one after the other. */
  lemma {:induction false} JoinLines(piece: nat -> string, lines: seq<string>, rest: string)
    requires forall k: nat :: k < |lines| ==> piece(k) == lines[k] + "\n"
    ensures Join(piece, |lines|) + rest == Unlines(lines, rest)
    decreases |lines|
  {
    if lines == [] {
      assert "" + rest == rest;
    } else {
      var n := |lines| - 1;
      JoinLines(piece, lines[..n], lines[n] + ("\n" + rest));
      Assoc(Join(piece, n), piece(n), rest);
      Assoc(lines[n], "\n", rest);
      UnlinesAppend(lines[..n], [lines[n]], rest);
      assert lines[..n] + [lines[n]] == lines;
      assert Unlines([lines[n]], rest) == lines[n] + ("\n" + rest);
    }
  }

  /** Items written on lines, up to the first line that is `stop`; and the lines behind it. */
  function ReadUntil<T>(lines: seq<string>, stop: string, read: string -> Option<T>): Option<(seq<T>, seq<string>)> {
    if lines == [] then None
    else if lines[0] == stop then Some(([], lines[1..]))
    else
      var item :- read(lines[0]);
      var (items, rest) :- ReadUntil(lines[1..], stop, read);
      Some(([item] + items, rest))
  }

  lemma {:induction false} ReadUntilStop<T>(items: seq<T>, lines: seq<string>, stop: string,
                                            read: string -> Option<T>, rest: seq<string>)
    requires |lines| == |items|
    requires forall k :: 0 <= k < |items| ==> lines[k] != stop && read(lines[k]) == Some(items[k])
    ensures ReadUntil(lines + [stop] + rest, stop, read) == Some((items, rest))
  {
    var all := lines + [stop] + rest;
    if lines == [] {
      assert all == [stop] + rest;
    } else {
      ReadUntilStop(items[1..], lines[1..], stop, read, rest);
      assert all[1..] == lines[1..] + [stop] + rest;
      assert [items[0]] + items[1..] == items;
    }
  }
}
