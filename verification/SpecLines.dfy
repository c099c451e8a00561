// What the reader of init.spec accepts of text that anybody may have written: the rules of the
// format, stated line by line, and that the reader follows them.

module SpecLines {
  import opened Prelude
  import opened InitSpec
  import opened InitSpecText
  import Expand

  // ---- The format ----

  /** The number that digits stand for, read from the left. */
  function Horner(so: nat, s: string, radix: nat): nat
    requires forall i | 0 <= i < |s| :: '0' <= s[i] <= '9'
    decreases |s|
  {
    if s == "" then so else Horner(so * radix + (s[0] as int - '0' as int), s[1..], radix)
  }

  /** `s` writes `n`: digits up to `last`, at least one, with a plus sign before them or not. */
  predicate Numeral(s: string, last: char, radix: nat, n: nat)
    requires last <= '9'
  {
    var digits := Unsigned(s);
    && digits != "" && (forall i | 0 <= i < |digits| :: '0' <= digits[i] <= last)
    && Horner(0, digits, radix) == n < 0x1_0000_0000
  }

  function Unsigned(s: string): string { if s != "" && s[0] == '+' then s[1..] else s }

  predicate Owner(s: string, id: Option<U32>) {
    match id
    case None => s == "-"
    case Some(n) => Numeral(s, '9', 10, n)
  }

  /** The fields of a line ask for `step`. */
  predicate Asks(u: Expand.Unicode, lookup: Expand.Lookup, fields: seq<string>, step: Step) {
    match step
    case Dir(path, mode, uid, gid) =>
      && |fields| == 5 && fields[0] == "dir"
      && fields[1] != "" && Expand.Expansion(u, fields[1], lookup) == Ok(path)
      && Numeral(fields[2], '7', 8, mode) && Owner(fields[3], uid) && Owner(fields[4], gid)
    case MustExist(path, kind) =>
      && |fields| == 3 && fields[0] == "must-exist"
      && fields[1] != "" && Expand.Expansion(u, fields[1], lookup) == Ok(path)
      && fields[2] == match kind
                      case Any => "any"
                      case Directory => "dir"
                      case File => "file"
  }

  /** A line as it is written, with any number of carriage returns at its end. */
  datatype Line = Note(text: string, returns_: nat) | Fields(fields: seq<string>, returns_: nat)

  predicate Writable(line: Line) {
    match line
    case Note(text, _) => FreeOf(text, {'\n'}) && (text == "" || text[0] == '#')
    case Fields(fields, _) =>
      && fields != [] && (forall i | 0 <= i < |fields| :: FreeOf(fields[i], {'\t'}) && FreeOf(fields[i], {'\n'}))
      && var text := Join(fields, "\t");
         text != "" && text[0] != '#' && text[|text| - 1] != '\r'
  }

  function Returns(n: nat): string { if n == 0 then "" else Returns(n - 1) + "\r" }

  function TextOf(line: Line): string {
    (if line.Note? then line.text else Join(line.fields, "\t")) + Returns(line.returns_)
  }

  function TextsOf(lines: seq<Line>): (texts: seq<string>)
    ensures |texts| == |lines| && forall i | 0 <= i < |lines| :: texts[i] == TextOf(lines[i])
  {
    seq(|lines|, i requires 0 <= i < |lines| => TextOf(lines[i]))
  }

  /** The lines ask for the steps, one after the other; notes ask for nothing. */
  predicate AllAsk(u: Expand.Unicode, lookup: Expand.Lookup, lines: seq<Line>, steps: seq<Step>) {
    if lines == [] then steps == []
    else if lines[0].Note? then AllAsk(u, lookup, lines[1..], steps)
    else steps != [] && Asks(u, lookup, lines[0].fields, steps[0]) && AllAsk(u, lookup, lines[1..], steps[1..])
  }

  // ---- Numbers ----

  lemma {:induction false} HornerGrows(so: nat, s: string, c: char, radix: nat)
    requires '0' <= c <= '9' && forall i | 0 <= i < |s| :: '0' <= s[i] <= '9'
    ensures Horner(so, s + [c], radix) == Horner(so, s, radix) * radix + (c as int - '0' as int)
    decreases |s|
  {
    var t := s + [c];
    if s == "" {
      assert t[1..] == "";
    } else {
      assert t[1..] == s[1..] + [c] && t[0] == s[0];
      HornerGrows(so * radix + (s[0] as int - '0' as int), s[1..], c, radix);
    }
  }

  lemma {:induction false} HornerIsWorth(s: string, radix: nat)
    requires 2 <= radix <= 10 && AllDigits(s, radix) && forall i | 0 <= i < |s| :: '0' <= s[i] <= '9'
    ensures Horner(0, s, radix) == Worth(s, radix)
  {
    if s != "" {
      var last := |s| - 1;
      HornerIsWorth(s[..last], radix);
      HornerGrows(0, s[..last], s[last], radix);
      Swap(radix, Worth(s[..last], radix));
      assert s == s[..last] + [s[last]];
      assert Worth(s, radix) == radix * Worth(s[..last], radix) + (s[last] as int - '0' as int);
    }
  }

  lemma Swap(a: nat, b: nat)
    ensures a * b == b * a
  {
  }

  /** from_str_radix accepts the numerals below 2^32 and nothing else. */
  lemma NumbersExactly(s: string, last: char, radix: nat, n: U32)
    requires (last == '7' && radix == 8) || (last == '9' && radix == 10)
    ensures FromStrRadix(s, radix) == Some(n) <==> Numeral(s, last, radix, n)
  {
    var digits := Unsigned(s);
    NumberOf(s, digits, radix);
    hide FromStrRadix;
    assert AllDigits(digits, radix) <==> forall i | 0 <= i < |digits| :: '0' <= digits[i] <= last;
    if AllDigits(digits, radix) {
      assert forall i | 0 <= i < |digits| :: IsDigit(digits[i], radix);
      HornerIsWorth(digits, radix);
    }
  }

  lemma NumberOf(s: string, digits: string, radix: nat)
    requires 2 <= radix <= 10 && digits == Unsigned(s)
    ensures
      FromStrRadix(s, radix) ==
      if digits == "" || !AllDigits(digits, radix) || Worth(digits, radix) >= 0x1_0000_0000 then None
      else Some(Worth(digits, radix))
  {
    assert "+" <= s <==> s != "" && s[0] == '+';
  }

  lemma OwnersExactly(s: string, id: Option<U32>)
    ensures ParseId(s) == Ok(id) <==> Owner(s, id)
  {
    hide FromStrRadix, Numeral;
    if id.Some? {
      NumbersExactly(s, '9', 10, id.value);
      DashIsNoNumber(id.value);
    }
  }

  lemma DashIsNoNumber(n: nat)
    ensures !Numeral("-", '9', 10, n)
  {
    var s := "-";
    assert Unsigned(s) == s && s[0] < '0';
  }

  // ---- Lines ----

  lemma StepExactly(u: Expand.Unicode, lookup: Expand.Lookup, fields: seq<string>, step: Step)
    requires fields != []
    ensures StepOf(u, lookup, fields) == Ok(step) <==> Asks(u, lookup, fields, step)
  {
    hide FromStrRadix, ParseId, Numeral, Owner, Expand.Expansion;
    assert "dir" != "must-exist" by {
      assert |"dir"| == 3 && |"must-exist"| == 10;
    }
    match step
    case Dir(path, mode, uid, gid) =>
      if |fields| == 5 {
        NumbersExactly(fields[2], '7', 8, mode);
        OwnersExactly(fields[3], uid);
        OwnersExactly(fields[4], gid);
      }
    case MustExist(path, kind) =>
      WordsDiffer();
  }

  lemma WordsDiffer()
    ensures "any" != "dir" && "any" != "file" && "dir" != "file"
  {
    assert "any"[0] == 'a' && "dir"[0] == 'd' && "file"[0] == 'f';
  }

  lemma OneReturn(s: string)
    ensures Trimmed(s + "\r") == Trimmed(s)
  {
    var t := s + "\r";
    assert t[..|t| - 1] == s;
  }

  lemma NoReturn(s: string)
    requires s == "" || s[|s| - 1] != '\r'
    ensures Trimmed(s) == s
  {
  }

  lemma {:induction false} ReturnsAreDropped(s: string, n: nat)
    requires s == "" || s[|s| - 1] != '\r'
    ensures Trimmed(s + Returns(n)) == s
  {
    hide Trimmed;
    if n == 0 {
      NoReturn(s);
      assert s + "" == s;
    } else {
      assert s + Returns(n) == (s + Returns(n - 1)) + "\r";
      OneReturn(s + Returns(n - 1));
      ReturnsAreDropped(s, n - 1);
    }
  }

  lemma {:induction false} TrimmedIsPrefix(s: string)
    ensures Trimmed(s) <= s && (s != "" && s[0] != '\r' ==> Trimmed(s) != "")
  {
    if s != "" && s[|s| - 1] == '\r' {
      TrimmedIsPrefix(s[..|s| - 1]);
    }
  }

  lemma LineIsRead(line: Line)
    requires Writable(line)
    ensures FreeOf(TextOf(line), {'\n'})
    ensures Skipped(Trimmed(TextOf(line))) <==> line.Note?
    ensures line.Fields? ==> Split(Trimmed(TextOf(line)), '\t') == line.fields
  {
    hide FreeOf, Trimmed, Split, Join;
    ReturnsAreReturns(line.returns_);
    match line
    case Note(text, n) =>
      FreeTogether(text, Returns(n));
      if text == "" {
        ReturnsAreDropped("", n);
      } else {
        TrimmedIsPrefix(text + Returns(n));
        assert (text + Returns(n))[0] == '#';
      }
    case Fields(fields, n) =>
      var text := Join(fields, "\t");
      JoinIsFree(fields, {'\n'});
      FreeTogether(text, Returns(n));
      ReturnsAreDropped(text, n);
      SplitOfJoin(fields, '\t');
  }

  lemma FreeTogether(a: string, b: string)
    requires FreeOf(a, {'\n'}) && FreeOf(b, {'\n'})
    ensures FreeOf(a + b, {'\n'})
  {
  }

  lemma {:induction false} ReturnsAreReturns(n: nat)
    ensures FreeOf(Returns(n), {'\n'})
  {
    if n > 0 {
      ReturnsAreReturns(n - 1);
    }
  }

  /** What is wrong with the fields of a line, the first thing first. */
  ghost predicate Complaint(u: Expand.Unicode, lookup: Expand.Lookup, fields: seq<string>, reason: Reason)
    requires fields != []
  {
    var known := fields[0] == "dir" || fields[0] == "must-exist";
    var counted := (fields[0] == "dir" && |fields| == 5) || (fields[0] == "must-exist" && |fields| == 3);
    match reason
    case UnknownStep(word) => !known && word == fields[0]
    case FieldCount(got) => known && !counted && got == |fields| - 1
    case EmptyPath => counted && fields[1] == ""
    case BadPath(e) => counted && fields[1] != "" && Expand.Expansion(u, fields[1], lookup) == Err(e)
    case UnknownKind(word) =>
      && |fields| == 3 && fields[0] == "must-exist" && Expand.Expansion(u, fields[1], lookup).Ok?
      && word == fields[2] && word != "any" && word != "dir" && word != "file"
    case NotOctal(word) =>
      && |fields| == 5 && fields[0] == "dir" && Expand.Expansion(u, fields[1], lookup).Ok?
      && word == fields[2] && forall n :: !Numeral(word, '7', 8, n)
    case NotAnId(word) =>
      && |fields| == 5 && fields[0] == "dir" && Expand.Expansion(u, fields[1], lookup).Ok?
      && (exists n :: Numeral(fields[2], '7', 8, n))
      && word != "-" && (forall n :: !Numeral(word, '9', 10, n))
      && (word == fields[3] || (word == fields[4] && exists id :: Owner(fields[3], id)))
  }

  lemma NoNumber(s: string, last: char, radix: nat)
    requires (last == '7' && radix == 8) || (last == '9' && radix == 10)
    ensures FromStrRadix(s, radix).None? ==> forall n :: !Numeral(s, last, radix, n)
    ensures FromStrRadix(s, radix).Some? ==> Numeral(s, last, radix, FromStrRadix(s, radix).value)
  {
    hide FromStrRadix;
    forall n: nat | Numeral(s, last, radix, n)
      ensures FromStrRadix(s, radix) == Some(n)
    {
      var small: U32 := n;
      NumbersExactly(s, last, radix, small);
    }
    if FromStrRadix(s, radix).Some? {
      NumbersExactly(s, last, radix, FromStrRadix(s, radix).value);
    }
  }

  lemma ReasonIsRight(u: Expand.Unicode, lookup: Expand.Lookup, fields: seq<string>)
    requires fields != [] && StepOf(u, lookup, fields).Err?
    ensures Complaint(u, lookup, fields, StepOf(u, lookup, fields).error)
  {
    hide FromStrRadix, Numeral, Expand.Expansion;
    if |fields| == 5 {
      NoNumber(fields[2], '7', 8);
      NoNumber(fields[3], '9', 10);
      NoNumber(fields[4], '9', 10);
      if ParseId(fields[3]).Ok? {
        OwnersExactly(fields[3], ParseId(fields[3]).value);
      }
    }
  }

  /** From line `before + 1` on: the steps are those the lines ask for; and where there are none,
      the line complained about is the first that asks for nothing and is no note. */
  lemma {:induction false} LinesAreRead(u: Expand.Unicode, lookup: Expand.Lookup, lines: seq<Line>, before: nat)
    requires forall i | 0 <= i < |lines| :: Writable(lines[i])
    ensures
      var r := StepsFrom(u, lookup, TextsOf(lines), before);
      && (forall steps :: r == Ok(steps) <==> AllAsk(u, lookup, lines, steps))
      && (r.Err? ==> FirstAtFault(u, lookup, lines, r.error.lineNumber - before - 1, r.error.reason))
    decreases |lines|
  {
    hide StepOf, Split, Trimmed, Skipped, Asks, Writable, TextOf, Complaint;
    if lines != [] {
      var line, rest := lines[0], lines[1..];
      assert TextsOf(lines)[1..] == TextsOf(rest);
      LineIsRead(line);
      LinesAreRead(u, lookup, rest, before + 1);
      var r, more := StepsFrom(u, lookup, TextsOf(lines), before), StepsFrom(u, lookup, TextsOf(rest), before + 1);
      if line.Fields? {
        forall step
          ensures StepOf(u, lookup, line.fields) == Ok(step) <==> Asks(u, lookup, line.fields, step)
        {
          FieldsAreThere(line);
          StepExactly(u, lookup, line.fields, step);
        }
        FieldsAreThere(line);
        if StepOf(u, lookup, line.fields).Err? {
          ReasonIsRight(u, lookup, line.fields);
        }
        if r.Ok? {
          assert r.value == [r.value[0]] + more.value && r.value[1..] == more.value;
        }
        forall steps | AllAsk(u, lookup, lines, steps)
          ensures r == Ok(steps)
        {
          assert StepOf(u, lookup, line.fields) == Ok(steps[0]);
          assert more == Ok(steps[1..]);
          assert steps == [steps[0]] + steps[1..];
        }
      }
      if r.Err? && more.Err? && r == more {
        FaultBehind(u, lookup, lines, r.error.lineNumber - before - 2, r.error.reason);
      }
    }
  }

  lemma FieldsAreThere(line: Line)
    requires line.Fields? && Writable(line)
    ensures line.fields != []
  {
  }

  ghost predicate AtFault(u: Expand.Unicode, lookup: Expand.Lookup, line: Line) {
    line.Fields? && forall step :: !Asks(u, lookup, line.fields, step)
  }

  ghost predicate FirstAtFault(u: Expand.Unicode, lookup: Expand.Lookup, lines: seq<Line>, k: int, reason: Reason) {
    && 0 <= k < |lines| && AtFault(u, lookup, lines[k]) && (forall i | 0 <= i < k :: !AtFault(u, lookup, lines[i]))
    && lines[k].fields != [] && Complaint(u, lookup, lines[k].fields, reason)
  }

  lemma FaultBehind(u: Expand.Unicode, lookup: Expand.Lookup, lines: seq<Line>, k: int,
                    reason: Reason)
    requires lines != [] && !AtFault(u, lookup, lines[0]) && FirstAtFault(u, lookup, lines[1..], k, reason)
    ensures FirstAtFault(u, lookup, lines, k + 1, reason)
  {
    hide AtFault, Complaint;
    assert forall i | 0 < i < |lines| :: lines[i] == lines[1..][i - 1];
  }

  /** Any text of blank lines, comments and fields, whatever carriage returns it has: it is
      accepted exactly when all its lines ask for something, and is then what they ask for, in
      order; otherwise the complaint is about the first line that does not, and says what is wrong. */
  lemma TextIsRead(u: Expand.Unicode, lookup: Expand.Lookup, lines: seq<Line>)
    requires forall i | 0 <= i < |lines| :: Writable(lines[i])
    ensures
      var r := Parse(u, lookup, ConcatLines(TextsOf(lines)));
      && (forall steps :: r == Ok(steps) <==> AllAsk(u, lookup, lines, steps))
      && (r.Err? ==> FirstAtFault(u, lookup, lines, r.error.lineNumber - 1, r.error.reason))
  {
    hide AllAsk, FirstAtFault, StepsFrom, Writable, FreeOf;
    var texts := TextsOf(lines);
    forall i | 0 <= i < |texts|
      ensures FreeOf(texts[i], {'\n'})
    {
      LineIsRead(lines[i]);
    }
    LinesOfConcat(texts);
    LinesAreRead(u, lookup, lines, 0);
  }
}
