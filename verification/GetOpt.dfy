/** cllib/clcommon.cpp, getopt_long: the option parser every benchmark of the suite calls. */
module GetOpt {
  import opened CStrings
  import opened Traces
  import opened Wrappers

  /** One entry of `longopts`; `flag` is the address of an int, if any. */
  datatype LongOption = LongOption(name: string, hasArg: int, flag: Option<nat>, val: int)

  /** What stays the same over all calls of one parse. `table` ends before the null entry. */
  datatype Input = Input(argv: seq<string>, optstring: string, table: seq<LongOption>)

  /**
   * The variables getopt_long keeps between calls and the memory it writes for its caller: the
   * option index (None: not written) and the ints behind flag addresses.
   */
  datatype Parser = Parser(optind: nat, optarg: Option<string>, optopt: char, lastidx: nat, lastofs: nat,
                           longindex: Option<nat>, flags: map<nat, int>)

  /** The parser at program start. */
  const START: Parser := Parser(1, None, '\0', 0, 0, None, map[])

  predicate WellFormed(c: Input) {
    CString(c.optstring) && forall i :: 0 <= i < |c.argv| ==> CString(c.argv[i])
  }

  // ---- looking up a long option ------------------------------------------------------------

  datatype Lookup = NoMatch | Ambiguous | Match(index: nat)

  /** The key names entry i: its first exact match, or with no exact match its only prefix match. */
  ghost predicate Resolves(table: seq<LongOption>, key: string, i: nat) {
    && i < |table| && key <= table[i].name
    && if key == table[i].name then forall j :: 0 <= j < i ==> table[j].name != key
       else forall j :: 0 <= j < |table| && j != i ==> !(key <= table[j].name)
  }

  ghost predicate HasPrefixMatch(table: seq<LongOption>, key: string) {
    exists i :: 0 <= i < |table| && key <= table[i].name
  }

  ghost function LookupLong(table: seq<LongOption>, key: string): (found: Lookup)
    ensures found.Match? ==> Resolves(table, key, found.index)
  {
    if exists i: nat :: Resolves(table, key, i) then
      var i: nat :| Resolves(table, key, i);
      Match(i)
    else if HasPrefixMatch(table, key) then Ambiguous
    else NoMatch
  }

  lemma ResolvesOnce(table: seq<LongOption>, key: string, i: nat, j: nat)
    requires Resolves(table, key, i) && Resolves(table, key, j)
    ensures i == j
  {
  }

  /** What the key resolves to is what the lookup finds. */
  lemma LookupOf(table: seq<LongOption>, key: string, i: nat)
    requires Resolves(table, key, i)
    ensures LookupLong(table, key) == Match(i)
  {
    assert exists j: nat :: Resolves(table, key, j);
    ResolvesOnce(table, key, i, LookupLong(table, key).index);
  }

  /** Lines 143 to 156: the scan with its three-valued `match` pointer. */
  method ScanTable(table: seq<LongOption>, key: string) returns (found: Lookup)
    ensures found == LookupLong(table, key)
  {
    found := NoMatch;
    for o := 0 to |table|
      invariant forall j :: 0 <= j < o ==> table[j].name != key
      invariant found == NoMatch ==> forall j :: 0 <= j < o ==> !(key <= table[j].name)
      invariant found.Match? ==> found.index < o && key <= table[found.index].name
      invariant found.Match? ==> forall j :: 0 <= j < o && j != found.index ==> !(key <= table[j].name)
      invariant found == Ambiguous ==>
                  exists i, j :: 0 <= i < j < o && key <= table[i].name && key <= table[j].name
    {
      if key <= table[o].name {
        if |table[o].name| == |key| {
          assert Resolves(table, key, o);
          return Match(o);
        }
        if found == NoMatch {
          found := Match(o);
        } else {
          found := Ambiguous;
        }
      }
    }
    if found.Match? {
      assert Resolves(table, key, found.index);
    }
  }

  /** With distinct names, every full name is found. */
  lemma FullNameResolves(table: seq<LongOption>, i: nat)
    requires i < |table| && forall j, k :: 0 <= j < k < |table| ==> table[j].name != table[k].name
    ensures Resolves(table, table[i].name, i) && LookupLong(table, table[i].name) == Match(i)
  {
    assert Resolves(table, table[i].name, i);
    LookupOf(table, table[i].name, i);
  }

  // ---- one call ----------------------------------------------------------------------------

  /** Between calls: an offset into a cluster of short options lies inside that cluster. */
  ghost predicate Consistent(c: Input, s: Parser) {
    s.optind == 0
    || (s.lastidx <= s.optind
        && (s.lastidx == s.optind < |c.argv| ==> s.lastofs < |c.argv[s.optind]|))
  }

  predicate IsOption(word: string) {
    |word| >= 2 && word[0] == '-'
  }

  /** Line 124: a caller may restart the parser by setting optind to 0. */
  function Restart(s: Parser): Parser {
    if s.optind == 0 then s.(optind := 1, lastidx := 0) else s
  }

  /** The parser and the value returned by one call. */
  ghost function Call(c: Input, s: Parser): (Parser, int)
    requires WellFormed(c) && Consistent(c, s)
  {
    Again(c, Restart(s))
  }

  /** What the parser finds at the current word. */
  datatype Kind = Operand | Finished | DashDash | LongWord | ShortLetter | ClusterEnd

  function KindOf(c: Input, s: Parser): Kind
    requires s.optind > 0 && Consistent(c, s)
  {
    if s.optind < |c.argv| && At(c.optstring, 0) == '-' && At(c.argv[s.optind], 0) != '-' then Operand
    else if s.optind >= |c.argv| || !IsOption(c.argv[s.optind]) then Finished
    else if c.argv[s.optind] == "--" then DashDash
    else if c.argv[s.optind][1] == '-' then LongWord
    else if At(c.argv[s.optind], Offset(s) + 1) == '\0' then ClusterEnd
    else ShortLetter
  }

  /** The offset into a cluster counts for its own word only. */
  function Offset(s: Parser): nat {
    if s.lastidx == s.optind then s.lastofs else 0
  }

  /** Lines 183 to 186. */
  function EnterCluster(c: Input, s: Parser): Parser
    requires Consistent(c, s) && 0 < s.optind < |c.argv| && IsOption(c.argv[s.optind])
  {
    s.(lastidx := s.optind, lastofs := Offset(s), optopt := At(c.argv[s.optind], Offset(s) + 1))
  }

  function NextWord(s: Parser): Parser {
    s.(optind := s.optind + 1)
  }

  /** From the label `again`. */
  ghost function Again(c: Input, s: Parser): (Parser, int)
    requires WellFormed(c) && s.optind > 0 && Consistent(c, s)
    decreases |c.argv| - s.optind
  {
    match KindOf(c, s)
    case Operand => (NextWord(s.(optarg := Some(c.argv[s.optind]))), 1)
    case Finished => (s, -1)
    case DashDash => (NextWord(s), -1)
    case LongWord => Long(c, s, c.argv[s.optind][2..])
    case ShortLetter => Short(c, EnterCluster(c, s), c.argv[s.optind])
    case ClusterEnd => Again(c, NextWord(EnterCluster(c, s)))
  }

  /** Lines 138 to 181; arg is the word without its dashes. */
  ghost function Long(c: Input, s: Parser, arg: string): (Parser, int)
    requires s.optind < |c.argv|
  {
    var max := Find(arg, '=');
    match LookupLong(c.table, arg[..max])
    case Match(i) => Matched(c, s, arg, max, i)
    case _ => if At(c.optstring, 0) == ':' then (s, ':' as int) else (s.(optind := s.optind + 1), '?' as int)
  }

  ghost function Matched(c: Input, s: Parser, arg: string, max: nat, i: nat): (Parser, int)
    requires s.optind < |c.argv| && max <= |arg| && i < |c.table|
  {
    var o := c.table[i];
    var t := s.(longindex := Some(i));
    if o.hasArg <= 0 then Store(o, t.(optind := t.optind + 1))
    else if max < |arg| then Store(o, t.(optarg := Some(arg[max + 1..]), optind := t.optind + 1))
    else if s.optind + 1 < |c.argv| then
      Store(o, t.(optarg := Some(c.argv[s.optind + 1]), optind := t.optind + 2))
    else if o.hasArg != 1 then Store(o, t.(optarg := None, optind := t.optind + 2))
    else if At(c.optstring, 0) == ':' then (t.(optarg := None), ':' as int)
    else (t.(optarg := None, optind := t.optind + 1), '?' as int)
  }

  /** Lines 173 to 177. */
  function Store(o: LongOption, s: Parser): (Parser, int) {
    if o.flag.Some? then (s.(flags := s.flags[o.flag.value := o.val]), 0) else (s, o.val)
  }

  /** Lines 187 to 216 for a character that is not the terminator. */
  function Short(c: Input, s: Parser, word: string): (Parser, int)
    requires s.optind < |c.argv| && s.lastofs + 1 < |word|
  {
    var p := Find(c.optstring, s.optopt);
    var t := s.(optind := s.optind + 1);
    if p == |c.optstring| then (t, '?' as int)
    else if At(c.optstring, p + 1) != ':' then (s.(lastofs := s.lastofs + 1), s.optopt as int)
    else if At(c.optstring, p + 2) == ':' || s.lastofs + 2 < |word| then
      (t.(optarg := if s.lastofs + 2 < |word| then Some(word[s.lastofs + 2..]) else None), s.optopt as int)
    else if s.optind + 1 < |c.argv| then
      (s.(optarg := Some(c.argv[s.optind + 1]), optind := s.optind + 2), s.optopt as int)
    else (t.(optarg := None), ':' as int)
  }

  lemma {:induction false} AgainConsistent(c: Input, s: Parser)
    requires WellFormed(c) && s.optind > 0 && Consistent(c, s)
    ensures Consistent(c, Again(c, s).0) && Again(c, s).0.optind >= s.optind
    decreases |c.argv| - s.optind
  {
    if KindOf(c, s) == ClusterEnd {
      AgainConsistent(c, NextWord(EnterCluster(c, s)));
    }
  }

  /** The parser's static and global variables, updated in place. */
  class GetOpt {
    var optind: nat
    var optarg: Option<string>
    var optopt: char
    var lastidx: nat
    var lastofs: nat
    var longindex: Option<nat>
    var flags: map<nat, int>

    /** Static storage: `optind` starts at 1, everything else is zero. */
    constructor ()
      ensures View() == START
    {
      optind, optarg, optopt, lastidx, lastofs, longindex, flags := 1, None, '\0', 0, 0, None, map[];
    }

    ghost function View(): Parser
      reads this
    {
      Parser(optind, optarg, optopt, lastidx, lastofs, longindex, flags)
    }

    /** getopt_long. The loop is the source's `goto again`. */
    method GetoptLong(c: Input) returns (code: int)
      requires WellFormed(c) && Consistent(c, View())
      modifies this
      ensures (View(), code) == Call(c, old(View()))
      ensures Consistent(c, View())
    {
      if optind == 0 {
        optind, lastidx := 1, 0;
      }
      ghost var goal := Again(c, View());
      AgainConsistent(c, View());
      var again := true;
      code := 0;
      while again
        invariant again ==> optind > 0 && Consistent(c, View()) && Again(c, View()) == goal
        invariant !again ==> (View(), code) == goal
        decreases again, |c.argv| - optind
      {
        again, code := OnePass(c);
      }
    }

    /** From the label `again` to a return, or to `goto again` at the end of a cluster. */
    method OnePass(c: Input) returns (again: bool, code: int)
      requires WellFormed(c) && optind > 0 && Consistent(c, View())
      modifies this
      ensures again <==> KindOf(c, old(View())) == ClusterEnd
      ensures again ==> View() == NextWord(EnterCluster(c, old(View())))
      ensures !again ==> (View(), code) == Again(c, old(View()))
    {
      ghost var here := View();
      if optind < |c.argv| && At(c.optstring, 0) == '-' && At(c.argv[optind], 0) != '-' {
        optarg := Some(c.argv[optind]);
        optind := optind + 1;
        return false, 1;
      }
      if optind >= |c.argv| || !IsOption(c.argv[optind]) {
        return false, -1;
      }
      var word := c.argv[optind];
      if word == "--" {
        optind := optind + 1;
        return false, -1;
      }
      again, code := false, 0;
      if word[1] == '-' {
        assert KindOf(c, here) == LongWord;
        code := LongOptionWord(c, word[2..]);
        return;
      }
      if lastidx != optind {
        lastidx, lastofs := optind, 0;
      }
      optopt := At(word, lastofs + 1);
      assert View() == EnterCluster(c, here);
      if optopt != '\0' {
        assert KindOf(c, here) == ShortLetter;
        code := ShortOption(c, word);
        return;
      }
      optind := optind + 1;
      again := true;
    }

    /** Lines 137 to 182. */
    method LongOptionWord(c: Input, arg: string) returns (code: int)
      requires optind < |c.argv|
      modifies this
      ensures (View(), code) == Long(c, old(View()), arg)
    {
      var max := Find(arg, '=');
      var found := ScanTable(c.table, arg[..max]);
      if found.Match? {
        var o := c.table[found.index];
        longindex := Some(found.index);
        if o.hasArg > 0 {
          if max < |arg| {
            optarg := Some(arg[max + 1..]);
          } else {
            optarg := if optind + 1 < |c.argv| then Some(c.argv[optind + 1]) else None;
            if optarg.None? && o.hasArg == 1 {
              if At(c.optstring, 0) == ':' {
                return ':' as int;
              }
              optind := optind + 1;
              return '?' as int;
            }
            optind := optind + 1;
          }
        }
        optind := optind + 1;
        if o.flag.Some? {
          flags := flags[o.flag.value := o.val];
          return 0;
        }
        return o.val;
      }
      if At(c.optstring, 0) == ':' {
        return ':' as int;
      }
      optind := optind + 1;
      code := '?' as int;
    }

    /** Lines 187 to 216. */
    method ShortOption(c: Input, word: string) returns (code: int)
      requires optind < |c.argv| && lastofs + 1 < |word| && CString(word)
      modifies this
      ensures (View(), code) == Short(c, old(View()), word)
    {
      var tmp := Find(c.optstring, optopt);
      if tmp == |c.optstring| {
        optind := optind + 1;
        return '?' as int;
      }
      if At(c.optstring, tmp + 1) == ':' {
        if At(c.optstring, tmp + 2) == ':' || At(word, lastofs + 2) != '\0' {
          optarg := if lastofs + 2 < |word| then Some(word[lastofs + 2..]) else None;
        } else {
          optarg := if optind + 1 < |c.argv| then Some(c.argv[optind + 1]) else None;
          optind := optind + 1;
          if optarg.None? {
            return ':' as int;
          }
        }
      } else {
        lastofs := lastofs + 1;
        return optopt as int;
      }
      optind := optind + 1;
      code := optopt as int;
    }
  }

  // ---- progress ----------------------------------------------------------------------------

  ghost function WordsLeft(c: Input, s: Parser): nat {
    var at := Restart(s).optind;
    if at < |c.argv| then |c.argv| - at else 0
  }

  /** Characters left in the current word, the dash included. */
  ghost function CharsLeft(c: Input, s: Parser): nat
    requires Consistent(c, s)
  {
    var r := Restart(s);
    if r.optind >= |c.argv| then 0
    else if r.lastidx == r.optind then |c.argv[r.optind]| - r.lastofs
    else |c.argv[r.optind]|
  }

  ghost predicate Closer(c: Input, t: Parser, s: Parser)
    requires Consistent(c, s) && Consistent(c, t)
  {
    WordsLeft(c, t) < WordsLeft(c, s)
    || (WordsLeft(c, t) == WordsLeft(c, s) && CharsLeft(c, t) < CharsLeft(c, s))
  }

  /**
   * The calls that return ':' without stepping over the word: `optstring` starts with a colon, and
   * the long option is unknown, ambiguous, or lacks its required argument.
   */
  ghost predicate Stuck(c: Input, s: Parser)
    requires Consistent(c, s)
  {
    var at := Restart(s).optind;
    && At(c.optstring, 0) == ':' && at < |c.argv| && KindOf(c, Restart(s)) == LongWord
    && var arg := c.argv[at][2..];
       var max := Find(arg, '=');
       match LookupLong(c.table, arg[..max])
       case Match(i) => c.table[i].hasArg == 1 && max == |arg| && at + 1 == |c.argv|
       case _ => true
  }

  /**
   * A call that does not return -1 makes progress, by words or by characters of the current word,
   * exactly when it is not one of the stuck calls; `optind` never decreases.
   */
  lemma Progress(c: Input, s: Parser)
    requires WellFormed(c) && Consistent(c, s) && Call(c, s).1 != -1
    ensures Consistent(c, Call(c, s).0) && Call(c, s).0.optind >= s.optind
    ensures Closer(c, Call(c, s).0, s) <==> !Stuck(c, s)
  {
    var r := Restart(s);
    AgainConsistent(c, r);
    if KindOf(c, r) == ClusterEnd {
      AgainConsistent(c, NextWord(EnterCluster(c, r)));
    }
  }

  /** A stuck parser stays where it is: every further call returns ':' again. */
  lemma StuckForever(c: Input, s: Parser)
    requires WellFormed(c) && Consistent(c, s) && Stuck(c, s)
    ensures var t := Call(c, s).0;
            Call(c, s).1 == ':' as int && Consistent(c, t) && Stuck(c, t) && Call(c, t) == (t, ':' as int)
  {
  }

  // ---- whole parses ------------------------------------------------------------------------

  /** What a caller sees of one call: the code, and the option index and argument it wrote. */
  datatype Event = Event(code: int, longindex: Option<nat>, arg: Option<string>)

  /** Forget what earlier calls wrote for the caller; the parser never reads these fields. */
  function Fresh(s: Parser): Parser {
    s.(optarg := None, longindex := None)
  }

  /** One turn of a caller's option loop, which stops at -1. */
  ghost function OptionLoop(c: Input): Parser -> Turn<Parser, Event>
    requires WellFormed(c)
  {
    s => if Consistent(c, s) then LoopTurn(c, s) else Stop
  }

  ghost function LoopTurn(c: Input, s: Parser): Turn<Parser, Event>
    requires WellFormed(c) && Consistent(c, s)
  {
    var (t, code) := Call(c, Fresh(s));
    if code == -1 then Stop else Go(Event(code, t.longindex, t.optarg), t)
  }

  /** One turn of the loop: forget the last results, call, and note what the call wrote. */
  method TakeTurn(p: GetOpt, c: Input) returns (stop: bool, event: Event)
    requires WellFormed(c) && Consistent(c, p.View())
    modifies p
    ensures Consistent(c, p.View()) && (p.View(), event.code) == Call(c, Fresh(old(p.View())))
    ensures stop <==> event.code == -1
    ensures stop ==> LoopTurn(c, old(p.View())) == Stop
    ensures !stop ==> OptionLoop(c)(old(p.View())) == Go(event, p.View())
  {
    p.optarg, p.longindex := None, None;
    var code := p.GetoptLong(c);
    stop, event := code == -1, Event(code, p.longindex, p.optarg);
  }

  /**
   * The option loop of a benchmark's main: it ends, because no caller's `optstring` starts with a
   * colon.
   */
  method ReadOptions(p: GetOpt, c: Input) returns (events: seq<Event>, ghost last: Parser)
    requires WellFormed(c) && Consistent(c, p.View()) && At(c.optstring, 0) != ':'
    modifies p
    ensures Yields(OptionLoop(c), old(p.View()), events, last) && Consistent(c, last)
    ensures Call(c, Fresh(last)) == (p.View(), -1)
  {
    events := [];
    while true
      invariant Consistent(c, p.View()) && Yields(OptionLoop(c), old(p.View()), events, p.View())
      decreases WordsLeft(c, p.View()), CharsLeft(c, p.View())
    {
      ghost var before := p.View();
      var stop, event := TakeTurn(p, c);
      if stop {
        last := before;
        return;
      }
      Progress(c, Fresh(before));
      YieldsOne(OptionLoop(c), before, event, p.View());
      YieldsMore(OptionLoop(c), old(p.View()), events, before, [event], p.View());
      events := events + [event];
    }
  }

  /**
   * The same loop for any `optstring`, on a command line that is known to yield some events and then
   * to stop: it reads these events.
   */
  method ReadAll(p: GetOpt, c: Input, ghost expected: seq<Event>, ghost last: Parser) returns (events: seq<Event>)
    requires WellFormed(c) && Consistent(c, p.View()) && Consistent(c, last)
    requires Yields(OptionLoop(c), p.View(), expected, last) && LoopTurn(c, last) == Stop
    modifies p
    ensures events == expected && p.View() == Call(c, Fresh(last)).0
  {
    events := [];
    ghost var coming := expected;
    while true
      invariant Consistent(c, p.View()) && Yields(OptionLoop(c), p.View(), coming, last)
      invariant events + coming == expected
      decreases |coming|
    {
      ghost var before := p.View();
      var stop, event := TakeTurn(p, c);
      if stop {
        YieldsStop(OptionLoop(c), before, coming, last);
        return;
      }
      YieldsStep(OptionLoop(c), before, coming, last, event, p.View());
      assert coming == [event] + coming[1..];
      Assoc(events, [event], coming[1..]);
      events, coming := events + [event], coming[1..];
    }
  }
}
