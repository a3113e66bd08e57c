/**
 * Writing a list of options and operands as a command line and reading it with getopt_long: when that
 * is the identity, and when not.
 */
module GetOptRoundTrip {
  import opened CStrings
  import opened GetOpt
  import opened GetOptItems
  import opened Traces

  function AllWords(items: seq<Item>): seq<string> {
    if items == [] then [] else Words(items[0]) + AllWords(items[1..])
  }

  ghost predicate AllOk(c: Input, items: seq<Item>) {
    forall k :: 0 <= k < |items| ==> ItemOk(c, items[k])
  }

  ghost predicate AllPlain(c: Input, items: seq<Item>) {
    forall k :: 0 <= k < |items| ==> Plain(c, items[k])
  }

  ghost function AllEvents(c: Input, items: seq<Item>): seq<Event>
    requires AllOk(c, items)
  {
    if items == [] then []
    else
      assert ItemOk(c, items[0]);
      Events(c, items[0]) + AllEvents(c, items[1..])
  }

  /** The writes through flag addresses. */
  ghost function FlagsAfter(c: Input, items: seq<Item>, flags: map<nat, int>): map<nat, int>
    requires AllOk(c, items)
  {
    if items == [] then flags
    else
      assert ItemOk(c, items[0]);
      FlagsAfter(c, items[1..], FlagWrite(c, items[0], flags))
  }

  lemma {:induction false} AllWordsAppend(items: seq<Item>, more: seq<Item>)
    ensures AllWords(items + more) == AllWords(items) + AllWords(more)
  {
    if items == [] {
      assert items + more == more;
    } else {
      assert (items + more)[1..] == items[1..] + more;
      AllWordsAppend(items[1..], more);
    }
  }

  lemma {:induction false} AllEventsAppend(c: Input, items: seq<Item>, more: seq<Item>)
    requires AllOk(c, items) && AllOk(c, more)
    ensures AllEvents(c, items + more) == AllEvents(c, items) + AllEvents(c, more)
  {
    if items == [] {
      assert items + more == more;
    } else {
      assert (items + more)[1..] == items[1..] + more;
      AllEventsAppend(c, items[1..], more);
    }
  }

  lemma {:induction false} FlagsAppend(c: Input, items: seq<Item>, more: seq<Item>, flags: map<nat, int>)
    requires AllOk(c, items) && AllOk(c, more)
    ensures FlagsAfter(c, items + more, flags) == FlagsAfter(c, more, FlagsAfter(c, items, flags))
    decreases |items|
  {
    if items == [] {
      assert items + more == more;
    } else {
      assert (items + more)[1..] == items[1..] + more;
      FlagsAppend(c, items[1..], more, FlagWrite(c, items[0], flags));
    }
  }

  /** The items in two parts. */
  lemma Parts(c: Input, items: seq<Item>, k: nat, flags: map<nat, int>)
    requires AllOk(c, items) && k <= |items|
    ensures AllOk(c, items[..k]) && AllOk(c, items[k..])
    ensures AllWords(items) == AllWords(items[..k]) + AllWords(items[k..])
    ensures AllEvents(c, items) == AllEvents(c, items[..k]) + AllEvents(c, items[k..])
    ensures FlagsAfter(c, items, flags) == FlagsAfter(c, items[k..], FlagsAfter(c, items[..k], flags))
  {
    assert items[..k] + items[k..] == items;
    AllWordsAppend(items[..k], items[k..]);
    AllEventsAppend(c, items[..k], items[k..]);
    FlagsAppend(c, items[..k], items[k..], flags);
  }

  // ---- items that are read as they are written -------------------------------------------------

  lemma ItemParses(c: Input, s: Parser, i: nat, item: Item) returns (t: Parser)
    requires WellFormed(c) && Ready(c, s, i) && Plain(c, item) && WrittenAt(c, i, item)
    ensures Yields(OptionLoop(c), s, Events(c, item), t) && Ready(c, t, i + |Words(item)|)
    ensures t.flags == FlagWrite(c, item, s.flags)
  {
    if item.LongItem? {
      t := LongItemParses(c, s, i, item);
    } else if item.Operand? {
      t := OperandParses(c, s, i, item);
    } else {
      CallOfReady(c, s, i);
      t := ClusterParses(c, s, Settle(c, s, i), item, 0);
      assert item.letters[0..] == item.letters;
    }
  }

  /** The first item's words come first, the other items' words behind them. */
  lemma WordsAhead(c: Input, i: nat, items: seq<Item>)
    requires items != [] && i <= |c.argv| && AllWords(items) <= c.argv[i..]
    ensures WrittenAt(c, i, items[0])
    ensures AllWords(items[1..]) <= c.argv[i + |Words(items[0])|..]
  {
    var words := Words(items[0]);
    forall k | 0 <= k < |words|
      ensures c.argv[i + k] == words[k]
    {
      assert c.argv[i..][k] == AllWords(items)[k];
    }
    assert c.argv[i + |words|..] == c.argv[i..][|words|..];
    assert AllWords(items[1..]) == AllWords(items)[|words|..];
  }

  lemma {:induction false} ItemsParse(c: Input, s: Parser, i: nat, items: seq<Item>) returns (t: Parser)
    requires WellFormed(c) && Ready(c, s, i) && AllOk(c, items) && AllPlain(c, items)
    requires i <= |c.argv| && AllWords(items) <= c.argv[i..]
    ensures Yields(OptionLoop(c), s, AllEvents(c, items), t) && Ready(c, t, i + |AllWords(items)|)
    ensures t.flags == FlagsAfter(c, items, s.flags)
    decreases |items|
  {
    if items == [] {
      t := s;
    } else {
      WordsAhead(c, i, items);
      var u := ItemParses(c, s, i, items[0]);
      t := ItemsParse(c, u, i + |Words(items[0])|, items[1..]);
      YieldsMore(OptionLoop(c), s, Events(c, items[0]), u, AllEvents(c, items[1..]), t);
    }
  }

  /** At the operands the parser returns -1; only an explicit end of options is stepped over. */
  lemma StopsAtOperands(c: Input, t: Parser, i: nat)
    requires WellFormed(c) && Ready(c, t, i) && i <= |c.argv| && TailOk(c, c.argv[i..])
    ensures Call(c, Fresh(t)).1 == -1 && Call(c, Fresh(t)).0.flags == t.flags
    ensures Call(c, Fresh(t)).0.optind
            == if i < |c.argv| && c.argv[i] == "--" then i + 1 else i
  {
    CallOfReady(c, t, i);
    if i < |c.argv| {
      assert c.argv[i] == c.argv[i..][0];
    }
  }

  // ---- the whole command line ------------------------------------------------------------------

  /** A command line with these items and operands. */
  ghost predicate Rendered(c: Input, items: seq<Item>, tail: seq<string>) {
    && WellFormed(c) && AllOk(c, items) && TailOk(c, tail)
    && |c.argv| > 0 && c.argv[1..] == AllWords(items) + tail
  }

  /** Items of which only the last word of the command line leaves out an optional argument. */
  ghost predicate Consumed(c: Input, items: seq<Item>, tail: seq<string>) {
    forall k :: 0 <= k < |items| ==> Plain(c, items[k]) || (Bare(c, items[k]) && k + 1 == |items| && tail == [])
  }

  /** The option loop sees exactly the written options and operands. */
  ghost predicate ReadsBack(c: Input, items: seq<Item>)
    requires WellFormed(c) && AllOk(c, items)
  {
    exists t :: Consistent(c, t) && Yields(OptionLoop(c), START, AllEvents(c, items), t) && LoopTurn(c, t) == Stop
  }

  ghost predicate EndsBare(c: Input, items: seq<Item>) {
    items != [] && Bare(c, items[|items| - 1])
  }

  lemma DropWords(argv: seq<string>, words: seq<string>, behind: seq<string>)
    requires |argv| > 0 && argv[1..] == words + behind
    ensures words <= argv[1..] && 1 + |words| <= |argv| && argv[1 + |words|..] == behind
  {
    assert argv[1 + |words|..] == argv[1..][|words|..];
  }

  /** Where the first items end, and what comes behind them. */
  lemma WordsBehind(c: Input, items: seq<Item>, tail: seq<string>, k: nat)
    requires Rendered(c, items, tail) && k <= |items|
    ensures AllOk(c, items[..k]) && AllWords(items[..k]) <= c.argv[1..]
    ensures 1 + |AllWords(items[..k])| <= |c.argv|
    ensures c.argv[1 + |AllWords(items[..k])|..] == AllWords(items[k..]) + tail
  {
    assert items[..k] + items[k..] == items;
    AllWordsAppend(items[..k], items[k..]);
    Assoc(AllWords(items[..k]), AllWords(items[k..]), tail);
    DropWords(c.argv, AllWords(items[..k]), AllWords(items[k..]) + tail);
  }

  /** The state in which the parser reads item k, all before it being plain. */
  lemma ReachItem(c: Input, items: seq<Item>, tail: seq<string>, k: nat) returns (u: Parser)
    requires Rendered(c, items, tail) && k <= |items| && AllPlain(c, items[..k])
    ensures AllOk(c, items[..k]) && Yields(OptionLoop(c), START, AllEvents(c, items[..k]), u)
    ensures Ready(c, u, 1 + |AllWords(items[..k])|) && u.flags == FlagsAfter(c, items[..k], map[])
    ensures k < |items| ==> WrittenAt(c, 1 + |AllWords(items[..k])|, items[k])
  {
    WordsBehind(c, items, tail, k);
    u := ItemsParse(c, START, 1, items[..k]);
    if k < |items| {
      var i := 1 + |AllWords(items[..k])|;
      assert items[k..][0] == items[k];
      assert AllWords(items[k..]) <= c.argv[i..];
      WordsAhead(c, i, items[k..]);
    }
  }

  /** One item behind the others. */
  lemma LastItem(c: Input, items: seq<Item>, flags: map<nat, int>)
    requires AllOk(c, items) && items != []
    ensures var init, last := items[..|items| - 1], items[|items| - 1];
            && AllOk(c, init) && ItemOk(c, last) && AllWords(items) == AllWords(init) + Words(last)
            && AllEvents(c, items) == AllEvents(c, init) + Events(c, last)
            && FlagsAfter(c, items, flags) == FlagWrite(c, last, FlagsAfter(c, init, flags))
  {
    var n, last := |items| - 1, items[|items| - 1];
    Parts(c, items, n, flags);
    assert items[n..] == [last] && [last][1..] == [];
    assert ItemOk(c, items[n]);
  }

  /** A last option without its optional argument: nothing is taken, and `optind` is beyond the end. */
  lemma BareEnd(c: Input, items: seq<Item>) returns (t: Parser)
    requires Rendered(c, items, []) && Consumed(c, items, []) && EndsBare(c, items)
    ensures Consistent(c, t) && Yields(OptionLoop(c), START, AllEvents(c, items), t) && LoopTurn(c, t) == Stop
    ensures t.optind == |c.argv| + 1 && Call(c, Fresh(t)).0 == Fresh(t)
    ensures t.flags == FlagsAfter(c, items, map[])
  {
    var n := |items| - 1;
    var item := items[n];
    var u := ReachItem(c, items, [], n);
    LastItem(c, items, map[]);
    var i := 1 + |AllWords(items[..n])|;
    assert |c.argv| == 1 + |c.argv[1..]| == i + 1;
    CallOfReady(c, u, i);
    SettleBetween(c, u, i);
    BareItemCall(c, Settle(c, u, i), item);
    t := Call(c, Fresh(u)).0;
    YieldsOne(OptionLoop(c), u, Events(c, item)[0], t);
    YieldsMore(OptionLoop(c), START, AllEvents(c, items[..n]), u, Events(c, item), t);
  }

  /** What the option loop of a program sees, and where it ends, if every item finds its argument. */
  lemma ConsumedEnd(c: Input, items: seq<Item>, tail: seq<string>) returns (t: Parser)
    requires Rendered(c, items, tail) && Consumed(c, items, tail)
    ensures Consistent(c, t) && Yields(OptionLoop(c), START, AllEvents(c, items), t) && LoopTurn(c, t) == Stop
    ensures var e := Call(c, Fresh(t)).0;
            && e.flags == FlagsAfter(c, items, map[])
            && e.optind == 1 + |AllWords(items)| + (if tail != [] && tail[0] == "--" then 1 else 0)
                           + (if EndsBare(c, items) then 1 else 0)
  {
    if EndsBare(c, items) {
      t := BareEnd(c, items);
      assert |c.argv| == 1 + |c.argv[1..]|;
    } else {
      assert items[..|items|] == items;
      assert AllPlain(c, items[..|items|]);
      t := ReachItem(c, items, tail, |items|);
      WordsBehind(c, items, tail, |items|);
      assert items[|items|..] == [] && c.argv[1 + |AllWords(items)|..] == tail;
      StopsAtOperands(c, t, 1 + |AllWords(items)|);
    }
  }

  /** At an item that does not find its argument, the loop sees another argument than was written. */
  lemma MisreadItem(c: Input, s: Parser, i: nat, item: Item)
    requires WellFormed(c) && Ready(c, s, i) && ItemOk(c, item) && !Plain(c, item) && WrittenAt(c, i, item)
    requires Bare(c, item) ==> i + 1 < |c.argv|
    ensures var turn := OptionLoop(c)(s);
            turn.Go? && turn.event.arg != item.value && Events(c, item)[0].arg == item.value
  {
    CallOfReady(c, s, i);
    SettleBetween(c, s, i);
    if Bare(c, item) {
      BareItemCall(c, Settle(c, s, i), item);
    } else {
      OverfullItemCall(c, Settle(c, s, i), item);
    }
  }

  /** The first item that does not find its argument stops the events from being the written ones. */
  lemma MisreadFrom(c: Input, items: seq<Item>, tail: seq<string>, k: nat)
    requires Rendered(c, items, tail) && k < |items| && AllPlain(c, items[..k]) && !Plain(c, items[k])
    requires Bare(c, items[k]) ==> k + 1 < |items| || tail != []
    ensures !ReadsBack(c, items)
  {
    var u := ReachItem(c, items, tail, k);
    var i := 1 + |AllWords(items[..k])|;
    Parts(c, items, k, map[]);
    WordsBehind(c, items, tail, k);
    assert ItemOk(c, items[k]) && items[k..][0] == items[k];
    if Bare(c, items[k]) {
      SomethingBehind(items[k..], tail);
      assert |c.argv[i..]| == |c.argv| - i;
    }
    MisreadItem(c, u, i, items[k]);
    var rest := AllEvents(c, items[k..]);
    assert rest[0] == Events(c, items[k])[0];
    if ReadsBack(c, items) {
      var t :| Consistent(c, t) && Yields(OptionLoop(c), START, AllEvents(c, items), t) && LoopTurn(c, t) == Stop;
      YieldsRest(OptionLoop(c), START, AllEvents(c, items[..k]), u, rest, t);
    }
  }

  /** Behind a one-word item that is not the last word there is another word. */
  lemma SomethingBehind(items: seq<Item>, tail: seq<string>)
    requires items != [] && |Words(items[0])| == 1 && (|items| > 1 || tail != [])
    ensures |AllWords(items) + tail| > 1
  {
    if |items| > 1 {
      assert items[1..][0] == items[1] && |AllWords(items[1..])| >= |Words(items[1])|;
    }
  }

  ghost predicate OutOfPlace(c: Input, items: seq<Item>, tail: seq<string>, k: nat)
    requires k < |items|
  {
    !Plain(c, items[k]) && !(Bare(c, items[k]) && k + 1 == |items| && tail == [])
  }

  lemma {:induction false} FirstOutOfPlace(c: Input, items: seq<Item>, tail: seq<string>, n: nat) returns (k: nat)
    requires n < |items| && OutOfPlace(c, items, tail, n)
    ensures k <= n && OutOfPlace(c, items, tail, k) && forall j: nat :: j < k ==> !OutOfPlace(c, items, tail, j)
  {
    if j: nat :| j < n && OutOfPlace(c, items, tail, j) {
      k := FirstOutOfPlace(c, items, tail, j);
    } else {
      k := n;
    }
  }

  /**
   * Main result. The option loop of a program sees exactly what was written if and only if no option
   * is written with an argument it does not take, and an optional argument is left out by the last
   * word of the command line only.
   */
  lemma ReadsBackIff(c: Input, items: seq<Item>, tail: seq<string>)
    requires Rendered(c, items, tail)
    ensures ReadsBack(c, items) <==> Consumed(c, items, tail)
  {
    if Consumed(c, items, tail) {
      var t := ConsumedEnd(c, items, tail);
    } else {
      var n :| 0 <= n < |items| && !(Plain(c, items[n]) || (Bare(c, items[n]) && n + 1 == |items| && tail == []));
      assert OutOfPlace(c, items, tail, n);
      var k := FirstOutOfPlace(c, items, tail, n);
      forall j | 0 <= j < k
        ensures Plain(c, items[..k][j])
      {
        assert !OutOfPlace(c, items, tail, j);
      }
      MisreadFrom(c, items, tail, k);
    }
  }

  /**
   * A program that reads such a command line with a fresh parser sees exactly the written options, in
   * order, with their arguments, indices and flag writes. `optind` ends at the first operand, or one
   * beyond the end if the last option leaves out its argument.
   */
  method ReadRendered(c: Input, items: seq<Item>, tail: seq<string>)
    returns (events: seq<Event>, optind: nat, flags: map<nat, int>)
    requires Rendered(c, items, tail) && Consumed(c, items, tail)
    ensures events == AllEvents(c, items) && flags == FlagsAfter(c, items, map[])
    ensures optind == 1 + |AllWords(items)| + (if tail != [] && tail[0] == "--" then 1 else 0)
                      + (if EndsBare(c, items) then 1 else 0)
  {
    var p := new GetOpt();
    ghost var t := ConsumedEnd(c, items, tail);
    events := ReadAll(p, c, AllEvents(c, items), t);
    optind, flags := p.optind, p.flags;
  }
}
