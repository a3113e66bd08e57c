/** getopt_long on long options whose argument is optional: it takes the next word, whatever that is. */
module OptionalArguments {
  import opened CStrings
  import opened GetOpt
  import opened Wrappers

  /** Where the parser stands once it has left a used-up cluster, if it is in one. */
  function Settled(c: Input, s: Parser): Parser
    requires Consistent(c, s)
  {
    var r := Restart(s);
    if KindOf(c, r) == ClusterEnd then NextWord(EnterCluster(c, r)) else r
  }

  /** The long option at the current word has an optional argument, and none is attached. */
  ghost predicate OptionalHere(c: Input, r: Parser, i: nat)
    requires r.optind > 0 && Consistent(c, r)
  {
    && KindOf(c, r) == LongWord && i < |c.table| && c.table[i].hasArg > 1
    && '=' !in c.argv[r.optind][2..] && Resolves(c.table, c.argv[r.optind][2..], i)
  }

  /** The word read next is the last one, and its optional argument is left out. */
  ghost predicate TakesNothing(c: Input, s: Parser)
    requires WellFormed(c) && Consistent(c, s)
  {
    var r := Settled(c, s);
    r.optind + 1 == |c.argv| && exists i: nat :: OptionalHere(c, r, i)
  }

  lemma {:induction false} FindSeparator(s: string, c: char)
    ensures Find(s, c) == |s| <==> c !in s
  {
    assert s[..Find(s, c)] <= s;
    if Find(s, c) == |s| {
      assert s[..|s|] == s;
    }
  }

  lemma WholeKey(s: string)
    requires '=' !in s
    ensures Find(s, '=') == |s| && s[..Find(s, '=')] == s
  {
    FindSeparator(s, '=');
  }

  /** The settled parser is outside a used-up cluster, and the call is decided there. */
  lemma SettledCall(c: Input, s: Parser)
    requires WellFormed(c) && Consistent(c, s)
    ensures var r := Settled(c, s);
            r.optind > 0 && Consistent(c, r) && KindOf(c, r) != ClusterEnd && Call(c, s) == Again(c, r)
  {
    var r := Restart(s);
    if KindOf(c, r) == ClusterEnd {
      var q := NextWord(EnterCluster(c, r));
      if q.optind < |c.argv| && IsOption(c.argv[q.optind]) {
        assert c.argv[q.optind][1] in c.argv[q.optind];
      }
    }
  }

  /**
   * An optional argument that is left out: the next word is the argument, and there is none exactly
   * behind the last word; `optind` moves by 2 in both cases.
   */
  lemma OptionalArgument(c: Input, s: Parser, i: nat)
    requires WellFormed(c) && Consistent(c, s) && s.optind > 0 && OptionalHere(c, s, i)
    ensures Call(c, s) == Store(c.table[i], s.(optind := s.optind + 2, longindex := Some(i),
                                               optarg := if s.optind + 1 < |c.argv| then Some(c.argv[s.optind + 1])
                                                         else None))
    ensures Call(c, s).0.optarg == None <==> s.optind + 1 == |c.argv|
  {
    var arg := c.argv[s.optind][2..];
    WholeKey(arg);
    LookupOf(c.table, arg, i);
  }

  lemma LongWordBound(c: Input, r: Parser)
    requires WellFormed(c) && r.optind > 0 && Consistent(c, r) && KindOf(c, r) == LongWord
    ensures Again(c, r).0.optind > |c.argv|
            <==> r.optind + 1 == |c.argv| && exists i: nat :: OptionalHere(c, r, i)
  {
    var arg := c.argv[r.optind][2..];
    FindSeparator(arg, '=');
    if '=' !in arg {
      WholeKey(arg);
      var found := LookupLong(c.table, arg);
      if i: nat :| OptionalHere(c, r, i) {
        LookupOf(c.table, arg, i);
      }
      if found.Match? && c.table[found.index].hasArg > 1 {
        assert OptionalHere(c, r, found.index);
      }
    }
  }

  /** `optind` stays within the command line except behind a last option without its optional argument. */
  lemma OptindBoundIff(c: Input, s: Parser)
    requires WellFormed(c) && Consistent(c, s) && Restart(s).optind <= |c.argv|
    ensures Call(c, s).0.optind <= |c.argv| <==> !TakesNothing(c, s)
  {
    SettledCall(c, s);
    var r := Settled(c, s);
    if KindOf(c, r) == LongWord {
      LongWordBound(c, r);
    }
  }

  // ---- on the options of mem_latency ---------------------------------------------------------

  /** mem_latency.cpp lines 307 to 322; the flags are numbered in this order. */
  const MEM_LATENCY_OPTIONS: seq<LongOption> := [
    LongOption("info", 0, Some(0), 1), LongOption("help", 0, Some(1), 1), LongOption("csv", 0, Some(2), 1),
    LongOption("size", 2, None, 'a' as int), LongOption("device", 2, None, 'b' as int),
    LongOption("repeats", 2, None, 'c' as int), LongOption("type", 2, None, 'd' as int),
    LongOption("iterations", 2, None, 'e' as int), LongOption("layout", 2, None, 'f' as int)
  ]

  lemma OptionsFound()
    ensures Resolves(MEM_LATENCY_OPTIONS, "size", 3) && Resolves(MEM_LATENCY_OPTIONS, "device", 4)
  {
    assert "size"[0] == 's' && "info"[0] == 'i' && "help"[0] == 'h' && "csv"[0] == 'c' && "device"[0] == 'd';
  }

  /** The first word of the command line is a long option. */
  lemma LongWordIs(c: Input, name: string)
    requires |c.argv| > 1 && c.argv[1] == "--" + name && name != "" && At(c.optstring, 0) == 'a'
    ensures Consistent(c, START) && KindOf(c, START) == LongWord && c.argv[1][2..] == name
  {
    assert c.argv[1][0] == '-' && c.argv[1][1] == '-';
  }

  /** `mem_latency --size`: the program gets its option 'a' without an argument, and `optind` is 3 of 2. */
  lemma SizeAlone()
    ensures var c := Input(["mem_latency", "--" + "size"], "a:", MEM_LATENCY_OPTIONS);
            && WellFormed(c) && Consistent(c, START)
            && Call(c, START) == (START.(optind := 3, longindex := Some(3)), 'a' as int)
  {
    var c := Input(["mem_latency", "--" + "size"], "a:", MEM_LATENCY_OPTIONS);
    LongWordIs(c, "size");
    OptionsFound();
    OptionalArgument(c, START, 3);
  }

  /** `mem_latency --device --csv`: the device is "--csv", and the flag of --csv is not set. */
  lemma DeviceTakesCsv()
    ensures var c := Input(["mem_latency", "--" + "device", "--csv"], "a:", MEM_LATENCY_OPTIONS);
            var t := START.(optind := 3, longindex := Some(4), optarg := Some("--csv"));
            && WellFormed(c) && Consistent(c, START) && Call(c, START) == (t, 'b' as int)
            && Consistent(c, t) && Call(c, t) == (t, -1) && t.flags == map[]
  {
    var c := Input(["mem_latency", "--" + "device", "--csv"], "a:", MEM_LATENCY_OPTIONS);
    LongWordIs(c, "device");
    OptionsFound();
    OptionalArgument(c, START, 4);
  }
}
