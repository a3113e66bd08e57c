/** Writing options and operands as words of a command line, and parsing one of them with getopt_long. */
module GetOptItems {
  import opened CStrings
  import opened GetOpt
  import opened Traces
  import opened Wrappers

  /** A short option that takes an argument: in the same word, in the next one, or left out. */
  datatype Letter = Letter(letter: char, value: Option<string>, attached: bool)

  /**
   * A long option by the table index it means and the name or abbreviation written, or a cluster of
   * short options of which only the last may take an argument, or a word that is no option.
   */
  datatype Item =
    | LongItem(index: nat, key: string, value: Option<string>, attached: bool)
    | Cluster(letters: string, last: Option<Letter>)
    | Operand(word: string)

  // ---- rendering ---------------------------------------------------------------------------

  function Words(item: Item): (words: seq<string>)
    ensures |words| > 0
  {
    match item
    case LongItem(_, key, value, attached) =>
      if value.None? then ["--" + key]
      else if attached then ["--" + key + "=" + value.value]
      else ["--" + key, value.value]
    case Cluster(letters, last) =>
      if last.None? then ["-" + letters]
      else if last.value.value.None? then ["-" + letters + [last.value.letter]]
      else if last.value.attached then ["-" + letters + [last.value.letter] + last.value.value.value]
      else ["-" + letters + [last.value.letter], last.value.value.value]
    case Operand(word) => [word]
  }

  /** What a caller is to see. */
  function Events(c: Input, item: Item): seq<Event>
    requires item.LongItem? ==> item.index < |c.table|
  {
    match item
    case LongItem(index, _, value, _) =>
      [Event(if c.table[index].flag.Some? then 0 else c.table[index].val, Some(index), value)]
    case Cluster(letters, last) => LetterEvents(letters, last)
    case Operand(word) => [Event(1, None, Some(word))]
  }

  function LetterEvents(letters: string, last: Option<Letter>): seq<Event> {
    if letters != "" then [Event(letters[0] as int, None, None)] + LetterEvents(letters[1..], last)
    else if last.Some? then [Event(last.value.letter as int, None, last.value.value)]
    else []
  }

  /** The write through the flag address of an option. */
  function FlagWrite(c: Input, item: Item, flags: map<nat, int>): map<nat, int>
    requires item.LongItem? ==> item.index < |c.table|
  {
    if item.LongItem? && c.table[item.index].flag.Some?
    then flags[c.table[item.index].flag.value := c.table[item.index].val]
    else flags
  }

  // ---- what may be rendered ----------------------------------------------------------------

  predicate PlainLetter(c: Input, letter: char) {
    var p := Find(c.optstring, letter);
    letter != '\0' && p < |c.optstring| && At(c.optstring, p + 1) != ':'
  }

  predicate ArgumentLetter(c: Input, l: Letter) {
    var p := Find(c.optstring, l.letter);
    && l.letter != '\0' && p < |c.optstring| && At(c.optstring, p + 1) == ':'
    && if l.value.None? then At(c.optstring, p + 2) == ':'
       else if l.attached then l.value.value != ""
       else At(c.optstring, p + 2) != ':'
  }

  /**
   * What may be written. A long option may be written with a value it does not take, or without an
   * optional one; operands are for an `optstring` that starts with a dash.
   */
  ghost predicate ItemOk(c: Input, item: Item) {
    match item
    case LongItem(index, key, value, attached) =>
      && Resolves(c.table, key, index) && '=' !in key
      && (c.table[index].hasArg == 1 ==> value.Some?)
      && (key == "" ==> value.Some? && attached)
      && (c.table[index].flag.None? ==> c.table[index].val != -1)
    case Cluster(letters, last) =>
      && (forall k :: 0 <= k < |letters| ==> PlainLetter(c, letters[k]))
      && (last.Some? ==> ArgumentLetter(c, last.value))
      && (if letters != "" then letters[0] != '-' else last.Some? && last.value.letter != '-')
    case Operand(word) => At(c.optstring, 0) == '-' && At(word, 0) != '-'
  }

  /** A long option that may have an argument, written without one. */
  ghost predicate Bare(c: Input, item: Item) {
    item.LongItem? && item.index < |c.table| && item.value.None? && c.table[item.index].hasArg > 1
  }

  /** A long option that has no argument, written with one. */
  ghost predicate Overfull(c: Input, item: Item) {
    item.LongItem? && item.index < |c.table| && item.value.Some? && c.table[item.index].hasArg <= 0
  }

  /** The item is read as it is written, whatever comes behind it. */
  ghost predicate Plain(c: Input, item: Item) {
    ItemOk(c, item) && !Bare(c, item) && !Overfull(c, item)
  }

  /** Operands: nothing, an explicit end of options, or a word at which the parser stops. */
  predicate TailOk(c: Input, tail: seq<string>) {
    tail == [] || tail[0] == "--"
    || (!IsOption(tail[0]) && (At(c.optstring, 0) == '-' ==> At(tail[0], 0) == '-'))
  }

  // ---- parsing one item --------------------------------------------------------------------

  /** The next call reads word i: either `optind` is there, or the cluster before it is used up. */
  ghost predicate Ready(c: Input, s: Parser, i: nat) {
    && Consistent(c, s) && s.optind > 0
    && if s.optind == i then s.lastidx < i
       else s.optind + 1 == i && s.lastidx == s.optind && KindOf(c, s) == ClusterEnd
  }

  /** Where a ready parser stands once it has left the used-up cluster. */
  ghost function Settle(c: Input, s: Parser, i: nat): Parser
    requires Ready(c, s, i)
  {
    if s.optind == i then Fresh(s) else NextWord(EnterCluster(c, Fresh(s)))
  }

  lemma CallOfReady(c: Input, s: Parser, i: nat)
    requires WellFormed(c) && Ready(c, s, i)
    ensures Consistent(c, Settle(c, s, i)) && Call(c, Fresh(s)) == Again(c, Settle(c, s, i))
  {
  }

  lemma {:induction false} FindAfter(a: string, sep: char, b: string)
    requires sep !in a
    ensures Find(a + [sep] + b, sep) == |a|
  {
    if a != "" {
      assert (a + [sep] + b)[1..] == a[1..] + [sep] + b;
      FindAfter(a[1..], sep, b);
    }
  }

  lemma {:induction false} FindNone(a: string, sep: char)
    requires sep !in a
    ensures Find(a, sep) == |a|
  {
  }

  /** The first word of a rendered long option splits back into the key and the attached value. */
  lemma LongWordSplits(item: Item)
    requires item.LongItem? && '=' !in item.key && (item.key == "" ==> item.value.Some? && item.attached)
    ensures var word := Words(item)[0];
            && |word| >= 3 && word[0] == '-' && word[1] == '-' && Find(word[2..], '=') == |item.key|
            && word[2..][..|item.key|] == item.key
            && if item.value.Some? && item.attached
               then |item.key| < |word[2..]| && word[2..][|item.key| + 1..] == item.value.value
               else |item.key| == |word[2..]|
  {
    var key, word := item.key, Words(item)[0];
    if item.value.Some? && item.attached {
      FindAfter(key, '=', item.value.value);
      assert word[2..] == key + ['='] + item.value.value;
    } else {
      FindNone(key, '=');
      assert word[2..] == key;
    }
  }

  /** The words of an item stand in the command line from word i on. */
  ghost predicate WrittenAt(c: Input, i: nat, item: Item) {
    && i + |Words(item)| <= |c.argv|
    && forall k :: 0 <= k < |Words(item)| ==> c.argv[i + k] == Words(item)[k]
  }

  /** Between items, the last results forgotten. */
  ghost predicate Between(c: Input, q: Parser) {
    0 < q.optind && q.lastidx < q.optind && Consistent(c, q) && q.optarg.None? && q.longindex.None?
  }

  /** The lookup of a long option succeeds, and what it does depends on the kind of argument. */
  lemma LongItemFound(c: Input, q: Parser, item: Item)
    requires WellFormed(c) && Between(c, q) && item.LongItem? && ItemOk(c, item) && WrittenAt(c, q.optind, item)
    ensures var arg := Words(item)[0][2..];
            |item.key| <= |arg| && Again(c, q) == Matched(c, q, arg, |item.key|, item.index)
    ensures c.argv[q.optind] == Words(item)[0]
  {
    LongWordSplits(item);
    LookupOf(c.table, item.key, item.index);
    assert c.argv[q.optind + 0] == Words(item)[0];
    assert KindOf(c, q) == LongWord;
  }

  lemma LongItemCall(c: Input, q: Parser, item: Item)
    requires WellFormed(c) && Between(c, q) && item.LongItem? && Plain(c, item) && WrittenAt(c, q.optind, item)
    ensures Again(c, q).1 == Events(c, item)[0].code
    ensures Again(c, q).0 == q.(optind := q.optind + |Words(item)|, optarg := item.value,
                                longindex := Some(item.index), flags := FlagWrite(c, item, q.flags))
  {
    LongItemFound(c, q, item);
    LongWordSplits(item);
    if |Words(item)| == 2 {
      assert c.argv[q.optind + 1] == Words(item)[1];
    }
  }

  /** Without its optional argument, a long option takes the next word, or nothing behind the last. */
  lemma BareItemCall(c: Input, q: Parser, item: Item)
    requires WellFormed(c) && Between(c, q) && Bare(c, item) && ItemOk(c, item) && WrittenAt(c, q.optind, item)
    ensures Again(c, q).1 == Events(c, item)[0].code
    ensures Again(c, q).0
            == q.(optind := q.optind + 2, longindex := Some(item.index), flags := FlagWrite(c, item, q.flags),
                  optarg := if q.optind + 1 < |c.argv| then Some(c.argv[q.optind + 1]) else None)
  {
    LongItemFound(c, q, item);
    LongWordSplits(item);
  }

  /** The value written behind an option that takes none is not reported. */
  lemma OverfullItemCall(c: Input, q: Parser, item: Item)
    requires WellFormed(c) && Between(c, q) && Overfull(c, item) && ItemOk(c, item) && WrittenAt(c, q.optind, item)
    ensures Again(c, q).1 == Events(c, item)[0].code
    ensures Again(c, q).0 == q.(optind := q.optind + 1, longindex := Some(item.index),
                                flags := FlagWrite(c, item, q.flags))
  {
    LongItemFound(c, q, item);
  }

  lemma SettleBetween(c: Input, s: Parser, i: nat)
    requires WellFormed(c) && Ready(c, s, i)
    ensures Between(c, Settle(c, s, i)) && Settle(c, s, i).optind == i && Settle(c, s, i).flags == s.flags
  {
  }

  /** A long option: one call, one event, and the words are consumed. */
  lemma LongItemParses(c: Input, s: Parser, i: nat, item: Item) returns (t: Parser)
    requires WellFormed(c) && Ready(c, s, i) && item.LongItem? && Plain(c, item) && WrittenAt(c, i, item)
    ensures Yields(OptionLoop(c), s, Events(c, item), t) && Ready(c, t, i + |Words(item)|)
    ensures t.flags == FlagWrite(c, item, s.flags)
  {
    CallOfReady(c, s, i);
    SettleBetween(c, s, i);
    LongItemCall(c, Settle(c, s, i), item);
    t := Call(c, Fresh(s)).0;
    YieldsOne(OptionLoop(c), s, Events(c, item)[0], t);
  }

  /** An operand, for an `optstring` that asks for operands in order. */
  lemma OperandParses(c: Input, s: Parser, i: nat, item: Item) returns (t: Parser)
    requires WellFormed(c) && Ready(c, s, i) && item.Operand? && ItemOk(c, item) && WrittenAt(c, i, item)
    ensures Yields(OptionLoop(c), s, Events(c, item), t) && Ready(c, t, i + |Words(item)|)
    ensures t.flags == s.flags
  {
    CallOfReady(c, s, i);
    SettleBetween(c, s, i);
    assert c.argv[i + 0] == Words(item)[0];
    assert KindOf(c, Settle(c, s, i)) == Kind.Operand;
    t := Call(c, Fresh(s)).0;
    YieldsOne(OptionLoop(c), s, Events(c, item)[0], t);
  }

  /** Inside a cluster: the next call continues, in state q, at offset k of word q.optind. */
  ghost predicate Inside(c: Input, s: Parser, q: Parser, k: nat)
    requires WellFormed(c)
  {
    && Consistent(c, s) && Consistent(c, q) && q.optind > 0 && Call(c, Fresh(s)) == Again(c, q)
    && q.lastidx <= q.optind && Offset(q) == k
    && q.optarg.None? && q.longindex.None? && q.flags == s.flags
    && (k > 0 ==> s.optind == s.lastidx == q.optind && s.lastofs == k)
  }

  ghost predicate ClusterAt(c: Input, i: nat, item: Item) {
    item.Cluster? && ItemOk(c, item) && WrittenAt(c, i, item)
  }

  /** Shape of the word a cluster is rendered to. */
  lemma ClusterWord(c: Input, i: nat, item: Item)
    requires ClusterAt(c, i, item)
    ensures var word, n := c.argv[i], |item.letters|;
            && IsOption(word) && word[1] != '-' && n + 1 <= |word|
            && (forall k :: 0 <= k < n ==> word[k + 1] == item.letters[k])
            && (item.last.None? ==> |word| == n + 1)
            && (item.last.Some? ==> |word| >= n + 2 && word[n + 1] == item.last.value.letter)
            && (item.last.Some? ==>
                  word[n + 2..] == if item.last.value.value.Some? && item.last.value.attached
                                   then item.last.value.value.value else "")
  {
    assert c.argv[i + 0] == Words(item)[0];
  }

  /** Inside a cluster the parser is at a letter. */
  lemma LetterKind(c: Input, q: Parser, k: nat)
    requires WellFormed(c) && 0 < q.optind < |c.argv| && Consistent(c, q) && Offset(q) == k
    requires IsOption(c.argv[q.optind]) && c.argv[q.optind][1] != '-' && k + 1 < |c.argv[q.optind]|
    ensures KindOf(c, q) == ShortLetter && Again(c, q) == Short(c, EnterCluster(c, q), c.argv[q.optind])
    ensures EnterCluster(c, q) == q.(lastidx := q.optind, lastofs := k, optopt := c.argv[q.optind][k + 1])
  {
    assert c.argv[q.optind][k + 1] in c.argv[q.optind];
  }

  lemma ShortWithoutArgument(c: Input, t: Parser, word: string)
    requires t.optind < |c.argv| && t.lastofs + 1 < |word| && PlainLetter(c, t.optopt)
    ensures Short(c, t, word) == (t.(lastofs := t.lastofs + 1), t.optopt as int)
  {
  }

  /** A letter without argument: the offset moves on by one. */
  lemma PlainLetterCall(c: Input, q: Parser, item: Item, k: nat)
    requires WellFormed(c) && 0 < q.optind && Consistent(c, q) && ClusterAt(c, q.optind, item)
    requires IsOption(c.argv[q.optind]) && Offset(q) == k < |item.letters|
    ensures Again(c, q) == (EnterCluster(c, q).(lastofs := k + 1), item.letters[k] as int)
  {
    ClusterWord(c, q.optind, item);
    LetterKind(c, q, k);
    var e := q.(lastidx := q.optind, lastofs := k, optopt := item.letters[k]);
    assert EnterCluster(c, q) == e;
    assert PlainLetter(c, item.letters[k]);
    ShortWithoutArgument(c, e, c.argv[q.optind]);
  }

  /** The last letter with its argument: the words of the cluster are consumed. */
  lemma ArgumentLetterCall(c: Input, q: Parser, item: Item)
    requires WellFormed(c) && 0 < q.optind && Consistent(c, q) && ClusterAt(c, q.optind, item)
    requires IsOption(c.argv[q.optind]) && Offset(q) == |item.letters| && item.last.Some?
    ensures Again(c, q) == (EnterCluster(c, q).(optind := q.optind + |Words(item)|,
                                                optarg := item.last.value.value),
                            item.last.value.letter as int)
  {
    ClusterWord(c, q.optind, item);
    LetterKind(c, q, |item.letters|);
    if item.last.value.value.Some? && !item.last.value.attached {
      assert c.argv[q.optind + 1] == Words(item)[1];
    }
  }

  lemma {:induction false} ClusterParses(c: Input, s: Parser, q: Parser, item: Item, k: nat)
    returns (t: Parser)
    requires WellFormed(c) && Inside(c, s, q, k) && ClusterAt(c, q.optind, item) && k <= |item.letters|
    ensures Yields(OptionLoop(c), s, LetterEvents(item.letters[k..], item.last), t)
    ensures Ready(c, t, q.optind + |Words(item)|) && t.flags == s.flags
    decreases |item.letters| - k
  {
    ClusterWord(c, q.optind, item);
    if k < |item.letters| {
      PlainLetterCall(c, q, item, k);
      var u := Call(c, Fresh(s)).0;
      t := ClusterParses(c, u, Fresh(u), item, k + 1);
      var event := Event(item.letters[k] as int, None, None);
      YieldsOne(OptionLoop(c), s, event, u);
      YieldsMore(OptionLoop(c), s, [event], u, LetterEvents(item.letters[k + 1..], item.last), t);
      assert item.letters[k..][1..] == item.letters[k + 1..];
    } else if item.last.Some? {
      ArgumentLetterCall(c, q, item);
      t := Call(c, Fresh(s)).0;
      YieldsOne(OptionLoop(c), s, LetterEvents("", item.last)[0], t);
    } else {
      t := s;
    }
  }
}
