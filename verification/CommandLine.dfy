// The command line of a rendered service: how it is quoted, how dinit takes it apart, and what
// variable substitution makes of its words.

module CommandLine {
  import opened Prelude
  import Expand
  import InitSpecText

  /** escape [ "\\" "\"" ] */
  function Escaped(s: string): string {
    if s == "" then ""
    else (if s[0] == '\\' || s[0] == '"' then ['\\', s[0]] else [s[0]]) + Escaped(s[1..])
  }

  function QuoteArgument(argument: string): string { "\"" + Escaped(argument) + "\"" }

  function Quoted(argv: seq<string>): seq<string> {
    if argv == [] then [] else [QuoteArgument(argv[0])] + Quoted(argv[1..])
  }

  /** concatMapStringsSep " " quoteArgument */
  function Command(argv: seq<string>): string { InitSpecText.Join(Quoted(argv), " ") }

  // ---- The reader: a value ends with its line; blanks outside double quotes separate words;
  // ---- a backslash stands for the character after it, inside quotes and out.

  datatype Reading = Reading(words: seq<string>, word: Option<string>, quoted: bool, escaped: bool)

  function More(word: Option<string>, c: char): Option<string> {
    Some((if word.Some? then word.value else "") + [c])
  }

  function Read(r: Reading, c: char): Reading {
    if r.escaped then r.(word := More(r.word, c), escaped := false)
    else if c == '\\' then r.(escaped := true)
    else if c == '"' then r.(word := Some(if r.word.Some? then r.word.value else ""), quoted := !r.quoted)
    else if (c == ' ' || c == '\t') && !r.quoted then
      if r.word.Some? then r.(words := r.words + [r.word.value], word := None) else r
    else r.(word := More(r.word, c))
  }

  function ReadAll(r: Reading, s: string): Reading
    decreases |s|
  {
    if s == "" then r else ReadAll(Read(r, s[0]), s[1..])
  }

  function FirstLine(s: string): string {
    if s == "" || s[0] == '\n' then "" else [s[0]] + FirstLine(s[1..])
  }

  /** The words of a value, or None if a quote or an escape is left open. */
  function Words(s: string): Option<seq<string>> {
    var r := ReadAll(Reading([], None, false, false), FirstLine(s));
    if r.quoted || r.escaped then None
    else Some(if r.word.Some? then r.words + [r.word.value] else r.words)
  }

  predicate OneLine(s: string) { '\n' !in s }

  lemma {:induction false} ReadAllAppend(r: Reading, a: string, b: string)
    ensures ReadAll(r, a + b) == ReadAll(ReadAll(r, a), b)
    decreases |a|
  {
    hide Read;
    if a == "" {
      assert a + b == b;
    } else {
      assert (a + b)[0] == a[0] && (a + b)[1..] == a[1..] + b;
      ReadAllAppend(Read(r, a[0]), a[1..], b);
    }
  }

  lemma {:induction false} FirstLineAppend(a: string, b: string)
    requires OneLine(a)
    ensures FirstLine(a + b) == a + FirstLine(b)
  {
    if a == "" {
      assert a + b == b;
    } else {
      assert (a + b)[0] == a[0] && (a + b)[1..] == a[1..] + b;
      FirstLineAppend(a[1..], b);
    }
  }

  /** Inside quotes, escaped text is read as what it was. */
  lemma {:induction false} EscapedIsRead(words: seq<string>, sofar: string, s: string)
    ensures ReadAll(Reading(words, Some(sofar), true, false), Escaped(s))
            == Reading(words, Some(sofar + s), true, false)
    decreases |s|
  {
    var r := Reading(words, Some(sofar), true, false);
    if s == "" {
      assert sofar + s == sofar;
    } else {
      var first := if s[0] == '\\' || s[0] == '"' then ['\\', s[0]] else [s[0]];
      ReadAllAppend(r, first, Escaped(s[1..]));
      assert ReadAll(r, first) == Reading(words, Some(sofar + [s[0]]), true, false) by {
        OneEscaped(words, sofar, s[0]);
      }
      EscapedIsRead(words, sofar + [s[0]], s[1..]);
      assert (sofar + [s[0]]) + s[1..] == sofar + s;
    }
  }

  lemma OneEscaped(words: seq<string>, sofar: string, c: char)
    ensures
      var first := if c == '\\' || c == '"' then ['\\', c] else [c];
      ReadAll(Reading(words, Some(sofar), true, false), first) == Reading(words, Some(sofar + [c]), true, false)
  {
    var r := Reading(words, Some(sofar), true, false);
    assert ReadAll(Read(r, c), "") == Read(r, c);
    if c == '\\' || c == '"' {
      assert ['\\', c][1..] == [c] && [c][1..] == "";
      assert ReadAll(r, ['\\', c]) == ReadAll(Read(r, '\\'), [c]);
      assert ReadAll(Read(r, '\\'), [c]) == ReadAll(Read(Read(r, '\\'), c), "");
    } else {
      assert [c][1..] == "";
    }
  }

  lemma QuotedIsRead(words: seq<string>, argument: string)
    ensures ReadAll(Reading(words, None, false, false), QuoteArgument(argument))
            == Reading(words, Some(argument), false, false)
  {
    hide ReadAll;
    var r := Reading(words, None, false, false);
    ReadAllAppend(r, "\"", Escaped(argument) + "\"");
    assert QuoteArgument(argument) == "\"" + (Escaped(argument) + "\"");
    OneRead(r, '"');
    var inside := Reading(words, Some(""), true, false);
    ReadAllAppend(inside, Escaped(argument), "\"");
    EscapedIsRead(words, "", argument);
    assert "" + argument == argument;
    OneRead(Reading(words, Some(argument), true, false), '"');
  }

  lemma OneRead(r: Reading, c: char)
    ensures ReadAll(r, [c]) == Read(r, c)
  {
    assert [c][1..] == "" && ReadAll(Read(r, c), "") == Read(r, c);
  }

  function Finished(r: Reading): seq<string> {
    if r.word.Some? then r.words + [r.word.value] else r.words
  }

  lemma {:induction false} CommandIsRead(words: seq<string>, argv: seq<string>)
    ensures
      var r := ReadAll(Reading(words, None, false, false), Command(argv));
      !r.quoted && !r.escaped && Finished(r) == words + argv
    decreases |argv|
  {
    hide ReadAll;
    var r := Reading(words, None, false, false);
    if argv == [] {
      NothingRead(r);
      assert words + argv == words;
    } else {
      QuotedIsRead(words, argv[0]);
      var read := Reading(words, Some(argv[0]), false, false);
      if |argv| == 1 {
        CommandOfOne(argv);
        assert argv == [argv[0]];
      } else {
        CommandOfMore(argv);
        var rest := Command(argv[1..]);
        ReadAllAppend(r, QuoteArgument(argv[0]), " " + rest);
        ReadAllAppend(read, " ", rest);
        OneRead(read, ' ');
        CommandIsRead(words + [argv[0]], argv[1..]);
        assert (words + [argv[0]]) + argv[1..] == words + argv;
      }
    }
  }

  lemma NothingRead(r: Reading)
    ensures ReadAll(r, Command([])) == r
  {
  }

  lemma CommandOfOne(argv: seq<string>)
    requires |argv| == 1
    ensures Command(argv) == QuoteArgument(argv[0])
  {
    assert Quoted(argv[1..]) == [];
  }

  lemma CommandOfMore(argv: seq<string>)
    requires |argv| > 1
    ensures Command(argv) == QuoteArgument(argv[0]) + (" " + Command(argv[1..]))
  {
    hide QuoteArgument;
    assert |Quoted(argv[1..])| >= 1;
    assert Quoted(argv)[1..] == Quoted(argv[1..]);
  }

  lemma {:induction false} EscapedLine(s: string)
    ensures OneLine(Escaped(s)) <==> OneLine(s)
  {
    if s != "" {
      EscapedLine(s[1..]);
      var first := if s[0] == '\\' || s[0] == '"' then ['\\', s[0]] else [s[0]];
      assert s == [s[0]] + s[1..];
      assert '\n' in first <==> s[0] == '\n';
    }
  }

  lemma {:induction false} CommandIsOneLine(argv: seq<string>)
    requires forall i | 0 <= i < |argv| :: OneLine(argv[i])
    ensures OneLine(Command(argv))
  {
    hide OneLine, QuoteArgument;
    if |argv| == 0 {
      assert OneLine("") by {
        EmptyIsOneLine();
      }
    } else {
      QuoteLine(argv[0]);
      if |argv| == 1 {
        CommandOfOne(argv);
      } else {
        CommandIsOneLine(argv[1..]);
        CommandOfMore(argv);
        BlankBetween(QuoteArgument(argv[0]), Command(argv[1..]));
      }
    }
  }

  lemma EmptyIsOneLine()
    ensures OneLine("")
  {
  }

  lemma QuoteLine(s: string)
    requires OneLine(s)
    ensures OneLine(QuoteArgument(s))
  {
    EscapedLine(s);
  }

  lemma BlankBetween(a: string, b: string)
    requires OneLine(a) && OneLine(b)
    ensures OneLine(a + (" " + b))
  {
  }

  lemma {:induction false} FirstLineOfLine(s: string)
    requires OneLine(s)
    ensures FirstLine(s) == s
  {
    if s != "" {
      FirstLineOfLine(s[1..]);
    }
  }

  /** Where an argument holds a newline, the line ends inside its quotes. */
  lemma {:induction false} EscapedIsCut(words: seq<string>, sofar: string, s: string, after: string)
    requires !OneLine(s)
    ensures
      var r := ReadAll(Reading(words, Some(sofar), true, false), FirstLine(Escaped(s) + after));
      r.quoted
    decreases |s|
  {
    var r := Reading(words, Some(sofar), true, false);
    var text := Escaped(s) + after;
    if s[0] == '\n' {
      assert text[0] == '\n';
    } else {
      var first := if s[0] == '\\' || s[0] == '"' then ['\\', s[0]] else [s[0]];
      assert text == first + (Escaped(s[1..]) + after);
      FirstLineAppend(first, Escaped(s[1..]) + after);
      ReadAllAppend(r, first, FirstLine(Escaped(s[1..]) + after));
      OneEscaped(words, sofar, s[0]);
      assert s == [s[0]] + s[1..];
      EscapedIsCut(words, sofar + [s[0]], s[1..], after);
    }
  }

  lemma QuotedIsCut(words: seq<string>, s: string, after: string)
    requires !OneLine(s)
    ensures ReadAll(Reading(words, None, false, false), FirstLine(QuoteArgument(s) + after)).quoted
  {
    hide ReadAll, Escaped;
    var r := Reading(words, None, false, false);
    var tail := Escaped(s) + ("\"" + after);
    assert QuoteArgument(s) + after == "\"" + tail;
    FirstLineAppend("\"", tail);
    ReadAllAppend(r, "\"", FirstLine(tail));
    OneRead(r, '"');
    EscapedIsCut(words, "", s, "\"" + after);
  }

  lemma {:induction false} CommandIsCut(words: seq<string>, argv: seq<string>, i: nat)
    requires i < |argv| && !OneLine(argv[i])
    ensures ReadAll(Reading(words, None, false, false), FirstLine(Command(argv))).quoted
    decreases |argv|
  {
    hide ReadAll, OneLine, QuoteArgument, FirstLine;
    var r := Reading(words, None, false, false);
    if |argv| == 1 {
      CommandOfOne(argv);
      QuotedIsCut(words, argv[0], "");
      assert QuoteArgument(argv[0]) + "" == QuoteArgument(argv[0]);
    } else {
      CommandOfMore(argv);
      var rest := Command(argv[1..]);
      if !OneLine(argv[0]) {
        QuotedIsCut(words, argv[0], " " + rest);
      } else {
        QuoteLine(argv[0]);
        FirstLineAppend(QuoteArgument(argv[0]), " " + rest);
        BlankIsOneLine();
        FirstLineAppend(" ", rest);
        ReadAllAppend(r, QuoteArgument(argv[0]), " " + FirstLine(rest));
        QuotedIsRead(words, argv[0]);
        var read := Reading(words, Some(argv[0]), false, false);
        ReadAllAppend(read, " ", FirstLine(rest));
        OneRead(read, ' ');
        CommandIsCut(words + [argv[0]], argv[1..], i - 1);
      }
    }
  }

  lemma BlankIsOneLine()
    ensures OneLine(" ")
  {
  }

  /** Taking the rendered command apart gives the argument vector it was made of, exactly when
      no argument holds a newline; otherwise a quote is left open. What dinit then does to the
      words is below. */
  lemma CommandRoundTrip(argv: seq<string>)
    ensures
      Words(Command(argv)) == if forall i | 0 <= i < |argv| :: OneLine(argv[i]) then Some(argv) else None
  {
    hide ReadAll, OneLine, Command;
    if forall i | 0 <= i < |argv| :: OneLine(argv[i]) {
      CommandIsOneLine(argv);
      FirstLineOfLine(Command(argv));
      CommandIsRead([], argv);
      assert [] + argv == argv;
    } else {
      var i :| 0 <= i < |argv| && !OneLine(argv[i]);
      CommandIsCut([], argv, i);
    }
  }

  /** An argument with a newline in it does not arrive. */
  lemma NewlineIsLost()
    ensures Words(Command(["\n"])) == None
  {
    hide Words, Command;
    assert !OneLine(["\n"][0]);
    CommandRoundTrip(["\n"]);
  }

  // ---- Substitution: what dinit does to every word of a command when it loads the service ----

  function ExpandEach(u: Expand.Unicode, lookup: Expand.Lookup, words: seq<string>): Option<seq<string>> {
    if words == [] then Some([])
    else
      match Expand.Expansion(u, words[0], lookup)
      case Err(_) => None
      case Ok(word) =>
        var rest :- ExpandEach(u, lookup, words[1..]);
        Some([word] + rest)
  }

  /** The argument vector a program is started with, or None if the service does not load. */
  function Arrives(u: Expand.Unicode, lookup: Expand.Lookup, command: string): Option<seq<string>> {
    var words :- Words(command);
    ExpandEach(u, lookup, words)
  }

  lemma {:induction false} ExpandEachWord(u: Expand.Unicode, lookup: Expand.Lookup, words: seq<string>)
    ensures
      var r := ExpandEach(u, lookup, words);
      && (r.Some? <==> forall i | 0 <= i < |words| :: Expand.Expansion(u, words[i], lookup).Ok?)
      && (r.Some? ==>
            && |r.value| == |words|
            && forall i | 0 <= i < |words| :: Expand.Expansion(u, words[i], lookup) == Ok(r.value[i]))
  {
    hide Expand.Expansion;
    if words != [] {
      ExpandEachWord(u, lookup, words[1..]);
      assert forall i | 0 < i < |words| :: words[i] == words[1..][i - 1];
    }
  }

  /** Every argument arrives as its expansion, exactly when all of them are one line and
      expand; otherwise the service does not load. */
  lemma ArgumentsArrive(u: Expand.Unicode, lookup: Expand.Lookup, argv: seq<string>)
    ensures
      var r := Arrives(u, lookup, Command(argv));
      && (r.Some? <==> forall i | 0 <= i < |argv| :: OneLine(argv[i]) && Expand.Expansion(u, argv[i], lookup).Ok?)
      && (r.Some? ==>
            && |r.value| == |argv|
            && forall i | 0 <= i < |argv| :: Expand.Expansion(u, argv[i], lookup) == Ok(r.value[i]))
  {
    hide Words, Command, OneLine, ExpandEach, Expand.Expansion;
    CommandRoundTrip(argv);
    ExpandEachWord(u, lookup, argv);
  }

  /** The vector arrives as it was written exactly when every argument is one line and expands
      to itself. */
  lemma ArrivesUnchanged(u: Expand.Unicode, lookup: Expand.Lookup, argv: seq<string>)
    ensures
      Arrives(u, lookup, Command(argv)) == Some(argv)
      <==> forall i | 0 <= i < |argv| :: OneLine(argv[i]) && Expand.Expansion(u, argv[i], lookup) == Ok(argv[i])
  {
    hide Arrives, Command, OneLine, Expand.Expansion;
    ArgumentsArrive(u, lookup, argv);
    var r := Arrives(u, lookup, Command(argv));
    if forall i | 0 <= i < |argv| :: OneLine(argv[i]) && Expand.Expansion(u, argv[i], lookup) == Ok(argv[i]) {
      assert r.Some?;
      forall i | 0 <= i < |argv|
        ensures r.value[i] == argv[i]
      {
        assert Expand.Expansion(u, argv[i], lookup) == Ok(r.value[i]);
      }
      assert r.value == argv;
    }
  }

  /** As every vector without dollar signs does. */
  lemma PlainArguments(u: Expand.Unicode, lookup: Expand.Lookup, argv: seq<string>)
    requires forall i | 0 <= i < |argv| :: OneLine(argv[i]) && '$' !in argv[i]
    ensures Arrives(u, lookup, Command(argv)) == Some(argv)
  {
    hide Arrives, Command, OneLine, Expand.Expansion;
    forall i | 0 <= i < |argv|
      ensures Expand.Expansion(u, argv[i], lookup) == Ok(argv[i])
    {
      Expand.NoDollars(argv[i]);
      Expand.EscapeInverse(u, argv[i], lookup);
    }
    ArrivesUnchanged(u, lookup, argv);
  }

  /** A path below the state directory arrives below the base the operator chose. */
  lemma StateDirArrives(u: Expand.Unicode, lookup: Expand.Lookup, argv: seq<string>, i: nat, name: string)
    requires Arrives(u, lookup, Command(argv)).Some?
    requires i < |argv| && argv[i] == Expand.STATE_DIR + "/" + name && '$' !in name
    ensures
      var r := Arrives(u, lookup, Command(argv)).value;
      |r| == |argv| && r[i] == Expand.StateBase(lookup) + "/" + name
  {
    hide Arrives, Command, OneLine, Expand.Expansion, Expand.StateBase;
    ArgumentsArrive(u, lookup, argv);
    Expand.StateDirExpands(u, name, lookup);
  }

  function EscapeEach(argv: seq<string>): (escaped: seq<string>)
    ensures |escaped| == |argv| && forall i | 0 <= i < |argv| :: escaped[i] == Expand.Escape(argv[i])
  {
    seq(|argv|, i requires 0 <= i < |argv| => Expand.Escape(argv[i]))
  }

  lemma {:induction false} EscapeIsOneLine(s: string)
    requires OneLine(s)
    ensures OneLine(Expand.Escape(s))
  {
    if s != "" {
      assert s == [s[0]] + s[1..];
      EscapeIsOneLine(s[1..]);
    }
  }

  /** Any vector of lines can be made to arrive, by doubling its dollar signs. */
  lemma EscapedArgumentsArrive(u: Expand.Unicode, lookup: Expand.Lookup, argv: seq<string>)
    requires forall i | 0 <= i < |argv| :: OneLine(argv[i])
    ensures Arrives(u, lookup, Command(EscapeEach(argv))) == Some(argv)
  {
    hide Arrives, Command, OneLine, Expand.Expansion, Expand.Escape, EscapeEach;
    var escaped := EscapeEach(argv);
    ArgumentsArrive(u, lookup, escaped);
    forall i | 0 <= i < |argv|
      ensures OneLine(escaped[i]) && Expand.Expansion(u, escaped[i], lookup) == Ok(argv[i])
    {
      EscapeIsOneLine(argv[i]);
      Expand.EscapeInverse(u, argv[i], lookup);
    }
    var r := Arrives(u, lookup, Command(escaped));
    assert r.Some?;
    forall i | 0 <= i < |argv|
      ensures r.value[i] == argv[i]
    {
      assert Expand.Expansion(u, escaped[i], lookup) == Ok(r.value[i]);
    }
    assert r.value == argv;
  }
}
