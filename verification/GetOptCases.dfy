/** What one call of getopt_long does, case by case, in terms of the command line and the option strings alone. */
module GetOptCases {
  import opened CStrings
  import opened GetOpt
  import opened OptionalArguments
  import opened Wrappers

  /** The current word is a dash and letters. */
  predicate ShortWord(c: Input, s: Parser) {
    && 0 < s.optind < |c.argv|
    && |c.argv[s.optind]| >= 2 && c.argv[s.optind][0] == '-' && c.argv[s.optind][1] != '-'
  }

  /** The next letter stands behind the dash and k letters of the current word. */
  predicate LetterAt(c: Input, s: Parser, k: nat, letter: char) {
    && ShortWord(c, s) && k == (if s.lastidx == s.optind then s.lastofs else 0)
    && k + 1 < |c.argv[s.optind]| && c.argv[s.optind][k + 1] == letter
  }

  /** All letters of the current word have been read. */
  predicate UsedUp(c: Input, s: Parser) {
    ShortWord(c, s) && s.lastidx == s.optind && s.lastofs + 1 == |c.argv[s.optind]|
  }

  /** The current word is two dashes and a key, and perhaps an equals sign and a value. */
  predicate LongWith(c: Input, s: Parser, key: string, value: Option<string>) {
    && 0 < s.optind < |c.argv| && '=' !in key && (key == "" ==> value.Some?)
    && c.argv[s.optind] == "--" + key + if value.Some? then "=" + value.value else ""
  }

  /** The letter's first place in the option string, with what stands before and behind it. */
  predicate Declares(optstring: string, letter: char, front: string, rest: string) {
    letter !in front && optstring == front + [letter] + rest
  }

  /** With `optstring` starting with a dash, a word without one is an argument of its own. */
  predicate OperandAt(c: Input, s: Parser) {
    && "-" <= c.optstring && 0 < s.optind < |c.argv|
    && (c.argv[s.optind] == "" || c.argv[s.optind][0] != '-')
  }

  /** Behind the last word, or at a word that is no option. */
  predicate StopsAt(c: Input, s: Parser) {
    0 < s.optind && (s.optind < |c.argv| ==> |c.argv[s.optind]| < 2 || c.argv[s.optind][0] != '-')
  }

  // ---- short options -----------------------------------------------------------------------------

  lemma {:induction false} FindFirst(front: string, letter: char, rest: string)
    requires letter !in front
    ensures Find(front + [letter] + rest, letter) == |front|
  {
    if front != "" {
      assert (front + [letter] + rest)[1..] == front[1..] + [letter] + rest;
      FindFirst(front[1..], letter, rest);
    }
  }

  lemma LetterCall(c: Input, s: Parser, k: nat, letter: char)
    requires WellFormed(c) && Consistent(c, s) && LetterAt(c, s, k, letter)
    ensures Call(c, s) == Short(c, s.(lastidx := s.optind, lastofs := k, optopt := letter), c.argv[s.optind])
    ensures letter != '\0'
  {
    assert letter in c.argv[s.optind];
    assert EnterCluster(c, s) == s.(lastidx := s.optind, lastofs := k, optopt := letter);
    assert KindOf(c, s) == ShortLetter;
  }

  /** A letter the option string does not contain: '?', the rest of the word is skipped, nothing is written. */
  lemma UnknownLetter(c: Input, s: Parser, k: nat, letter: char)
    requires WellFormed(c) && Consistent(c, s) && LetterAt(c, s, k, letter) && letter !in c.optstring
    ensures Call(c, s)
            == (s.(optind := s.optind + 1, lastidx := s.optind, lastofs := k, optopt := letter), '?' as int)
  {
    LetterCall(c, s, k, letter);
    FindSeparator(c.optstring, letter);
  }

  /** A letter the option string contains, by the colons behind it and by what is left of the word. */
  lemma KnownLetter(c: Input, s: Parser, k: nat, letter: char, front: string, rest: string)
    requires WellFormed(c) && Consistent(c, s) && LetterAt(c, s, k, letter)
    requires Declares(c.optstring, letter, front, rest)
    ensures var t, word := s.(lastidx := s.optind, lastofs := k, optopt := letter), c.argv[s.optind];
            Call(c, s)
            == if !(":" <= rest) then (t.(lastofs := k + 1), letter as int)
               else if k + 2 < |word| then
                 (t.(optind := s.optind + 1, optarg := Some(word[k + 2..])), letter as int)
               else if "::" <= rest then (t.(optind := s.optind + 1, optarg := None), letter as int)
               else if s.optind + 1 < |c.argv| then
                 (t.(optind := s.optind + 2, optarg := Some(c.argv[s.optind + 1])), letter as int)
               else (t.(optind := s.optind + 1, optarg := None), ':' as int)
  {
    LetterCall(c, s, k, letter);
    FindFirst(front, letter, rest);
    var p := |front|;
    assert rest == c.optstring[p + 1..];
    assert ":" <= rest <==> At(c.optstring, p + 1) == ':';
    assert "::" <= rest <==> ":" <= rest && At(c.optstring, p + 2) == ':';
  }

  /** At the end of a cluster the call goes on with the next word. */
  lemma UsedUpCall(c: Input, s: Parser)
    requires WellFormed(c) && Consistent(c, s) && UsedUp(c, s)
    ensures var t := s.(optind := s.optind + 1, optopt := '\0');
            Consistent(c, t) && Call(c, s) == Call(c, t)
  {
    assert NextWord(EnterCluster(c, s)) == s.(optind := s.optind + 1, optopt := '\0');
  }

  // ---- long options ------------------------------------------------------------------------------

  lemma LongWithKind(c: Input, s: Parser, key: string, value: Option<string>)
    requires WellFormed(c) && Consistent(c, s) && LongWith(c, s, key, value)
    ensures KindOf(c, s) == LongWord && Call(c, s) == Long(c, s, c.argv[s.optind][2..])
    ensures var arg := c.argv[s.optind][2..];
            && Find(arg, '=') == |key| && arg[..|key|] == key
            && (if value.Some? then |key| < |arg| && arg[|key| + 1..] == value.value else |key| == |arg|)
  {
    var word, arg := c.argv[s.optind], c.argv[s.optind][2..];
    assert word[0] == '-' && word[1] == '-' && |word| > 2;
    if value.Some? {
      assert arg == key + ['='] + value.value;
      FindFirst(key, '=', value.value);
    } else {
      assert arg == key;
      FindSeparator(key, '=');
    }
  }

  /** A key that names an entry, by the argument the entry takes and by the words there are. */
  lemma KnownKey(c: Input, s: Parser, key: string, value: Option<string>, i: nat)
    requires WellFormed(c) && Consistent(c, s) && LongWith(c, s, key, value) && Resolves(c.table, key, i)
    ensures var o := c.table[i];
            var code := if o.flag.Some? then 0 else o.val;
            var flags := if o.flag.Some? then s.flags[o.flag.value := o.val] else s.flags;
            var t := s.(longindex := Some(i), flags := flags);
            Call(c, s)
            == if o.hasArg <= 0 then (t.(optind := s.optind + 1), code)
               else if value.Some? then (t.(optind := s.optind + 1, optarg := value), code)
               else if s.optind + 1 < |c.argv| then
                 (t.(optind := s.optind + 2, optarg := Some(c.argv[s.optind + 1])), code)
               else if o.hasArg != 1 then (t.(optind := s.optind + 2, optarg := None), code)
               else if ":" <= c.optstring then (s.(longindex := Some(i), optarg := None), ':' as int)
               else (s.(longindex := Some(i), optarg := None, optind := s.optind + 1), '?' as int)
  {
    LongWithKind(c, s, key, value);
    LookupOf(c.table, key, i);
  }

  /** A key that names no entry, or more than one, writes nothing for the caller. */
  lemma UnknownKey(c: Input, s: Parser, key: string, value: Option<string>)
    requires WellFormed(c) && Consistent(c, s) && LongWith(c, s, key, value)
    requires forall i: nat :: !Resolves(c.table, key, i)
    ensures Call(c, s) == if ":" <= c.optstring then (s, ':' as int)
                          else (s.(optind := s.optind + 1), '?' as int)
  {
    LongWithKind(c, s, key, value);
    assert !LookupLong(c.table, key).Match?;
  }

  // ---- other words -------------------------------------------------------------------------------

  lemma RestartCall(c: Input, s: Parser)
    requires WellFormed(c) && Consistent(c, s) && s.optind == 0
    ensures var t := s.(optind := 1, lastidx := 0);
            Consistent(c, t) && Call(c, s) == Call(c, t)
  {
  }

  lemma OtherWords(c: Input, s: Parser)
    requires WellFormed(c) && Consistent(c, s) && s.optind > 0
    ensures OperandAt(c, s) ==> Call(c, s) == (s.(optind := s.optind + 1, optarg := Some(c.argv[s.optind])), 1)
    ensures StopsAt(c, s) && !OperandAt(c, s) ==> Call(c, s) == (s, -1)
    ensures s.optind < |c.argv| && c.argv[s.optind] == "--" ==> Call(c, s) == (s.(optind := s.optind + 1), -1)
  {
    if s.optind < |c.argv| && c.argv[s.optind] != "" {
      assert c.argv[s.optind][0] in c.argv[s.optind];
    }
  }

  // ---- which code a call returns -------------------------------------------------------------------

  /** There is no further case. */
  lemma EveryWord(c: Input, s: Parser) returns (k: nat, letter: char, key: string, value: Option<string>)
    requires WellFormed(c) && Consistent(c, s) && s.optind > 0 && !UsedUp(c, s)
    ensures OperandAt(c, s) || StopsAt(c, s) || c.argv[s.optind] == "--"
            || LetterAt(c, s, k, letter) || LongWith(c, s, key, value)
  {
    k, letter, key, value := 0, ' ', "", None;
    if !OperandAt(c, s) && !StopsAt(c, s) && c.argv[s.optind] != "--" {
      var word := c.argv[s.optind];
      if word[1] != '-' {
        k := if s.lastidx == s.optind then s.lastofs else 0;
        letter := word[k + 1];
      } else {
        var arg := word[2..];
        var max := Find(arg, '=');
        key, value := arg[..max], if max < |arg| then Some(arg[max + 1..]) else None;
        assert word == "--" + arg;
      }
    }
  }

  /** The next letter is not in the option string. */
  ghost predicate LetterUnknown(c: Input, s: Parser) {
    exists k: nat, letter :: LetterAt(c, s, k, letter) && letter !in c.optstring
  }

  /** The next letter needs an argument, which neither the rest of its word nor a next word provides. */
  ghost predicate LetterLacks(c: Input, s: Parser) {
    exists k: nat, letter, front, rest ::
      && LetterAt(c, s, k, letter) && Declares(c.optstring, letter, front, rest)
      && ":" <= rest && !("::" <= rest) && k + 2 == |c.argv[s.optind]| && s.optind + 1 == |c.argv|
  }

  /** A colon among the letters is found where it stands behind a letter. */
  ghost predicate ColonAsLetter(c: Input, s: Parser) {
    exists k: nat :: LetterAt(c, s, k, ':') && ':' in c.optstring
  }

  /** The key names no entry, or more than one, or one whose required argument is missing. */
  ghost predicate KeyFails(c: Input, s: Parser) {
    exists key, value :: LongWith(c, s, key, value)
      && ((forall i: nat :: !Resolves(c.table, key, i))
          || (value.None? && s.optind + 1 == |c.argv|
              && exists i: nat :: Resolves(c.table, key, i) && c.table[i].hasArg == 1))
  }

  /** No entry of the table and no letter has one of the codes that report errors or the end. */
  ghost predicate CodesDistinct(c: Input) {
    && '?' !in c.optstring
    && forall i :: 0 <= i < |c.table| && c.table[i].flag.None? ==>
         c.table[i].val != '?' as int && c.table[i].val != ':' as int && c.table[i].val != -1
  }

  lemma LetterCodes(c: Input, s: Parser, k: nat, letter: char)
    requires WellFormed(c) && Consistent(c, s) && LetterAt(c, s, k, letter) && CodesDistinct(c)
    ensures Call(c, s).1 == '?' as int ==> LetterUnknown(c, s)
    ensures Call(c, s).1 == ':' as int ==> LetterLacks(c, s) || ColonAsLetter(c, s)
    ensures Call(c, s).1 != -1
  {
    if letter !in c.optstring {
      UnknownLetter(c, s, k, letter);
    } else {
      var p := Find(c.optstring, letter);
      FindSeparator(c.optstring, letter);
      var front, rest := c.optstring[..p], c.optstring[p + 1..];
      assert Declares(c.optstring, letter, front, rest);
      KnownLetter(c, s, k, letter, front, rest);
    }
  }

  lemma KeyCodes(c: Input, s: Parser, key: string, value: Option<string>)
    requires WellFormed(c) && Consistent(c, s) && LongWith(c, s, key, value) && CodesDistinct(c)
    ensures Call(c, s).1 == '?' as int ==> KeyFails(c, s) && !(":" <= c.optstring)
    ensures Call(c, s).1 == ':' as int ==> KeyFails(c, s) && ":" <= c.optstring
    ensures Call(c, s).1 != -1
  {
    if i: nat :| Resolves(c.table, key, i) {
      KnownKey(c, s, key, value, i);
    } else {
      UnknownKey(c, s, key, value);
    }
  }

  lemma FailedKeyCode(c: Input, s: Parser)
    requires WellFormed(c) && Consistent(c, s) && KeyFails(c, s)
    ensures Call(c, s).1 == if ":" <= c.optstring then ':' as int else '?' as int
  {
    var key, value :| LongWith(c, s, key, value)
      && ((forall i: nat :: !Resolves(c.table, key, i))
          || (value.None? && s.optind + 1 == |c.argv|
              && exists i: nat :: Resolves(c.table, key, i) && c.table[i].hasArg == 1));
    if i: nat :| Resolves(c.table, key, i) && c.table[i].hasArg == 1 && value.None? {
      KnownKey(c, s, key, value, i);
    } else {
      UnknownKey(c, s, key, value);
    }
  }

  lemma LetterErrors(c: Input, s: Parser)
    requires WellFormed(c) && Consistent(c, s)
    ensures LetterUnknown(c, s) ==> Call(c, s).1 == '?' as int
    ensures LetterLacks(c, s) || ColonAsLetter(c, s) ==> Call(c, s).1 == ':' as int
  {
    if k: nat, letter :| LetterAt(c, s, k, letter) && letter !in c.optstring {
      UnknownLetter(c, s, k, letter);
    }
    if k: nat, letter, front, rest :|
      && LetterAt(c, s, k, letter) && Declares(c.optstring, letter, front, rest)
      && ":" <= rest && !("::" <= rest) && k + 2 == |c.argv[s.optind]| && s.optind + 1 == |c.argv| {
      KnownLetter(c, s, k, letter, front, rest);
    }
    if k: nat :| LetterAt(c, s, k, ':') && ':' in c.optstring {
      var p := Find(c.optstring, ':');
      FindSeparator(c.optstring, ':');
      assert Declares(c.optstring, ':', c.optstring[..p], c.optstring[p + 1..]);
      KnownLetter(c, s, k, ':', c.optstring[..p], c.optstring[p + 1..]);
    }
  }

  /**
   * Main result: exactly when a call reports an error, by which code, and when it ends the parse.
   * The two states excluded are reduced to others by RestartCall and UsedUpCall.
   */
  lemma CodesIff(c: Input, s: Parser)
    requires WellFormed(c) && Consistent(c, s) && s.optind > 0 && !UsedUp(c, s) && CodesDistinct(c)
    ensures Call(c, s).1 == '?' as int <==> LetterUnknown(c, s) || (KeyFails(c, s) && !(":" <= c.optstring))
    ensures Call(c, s).1 == ':' as int
            <==> LetterLacks(c, s) || ColonAsLetter(c, s) || (KeyFails(c, s) && ":" <= c.optstring)
    ensures Call(c, s).1 == -1
            <==> !OperandAt(c, s) && (StopsAt(c, s) || c.argv[s.optind] == "--")
  {
    var k, letter, key, value := EveryWord(c, s);
    OtherWords(c, s);
    LetterErrors(c, s);
    if KeyFails(c, s) {
      FailedKeyCode(c, s);
    }
    if LetterAt(c, s, k, letter) {
      LetterCodes(c, s, k, letter);
    } else if LongWith(c, s, key, value) {
      KeyCodes(c, s, key, value);
    }
  }
}
