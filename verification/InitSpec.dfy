// The reader of init.spec: lines, tab separated fields, Rust's unsigned numbers, steps.

module InitSpec {
  import opened Prelude
  import Bytes
  import Expand

  type U32 = Bytes.U32

  datatype Kind = Any | Directory | File

  datatype Step =
    | Dir(path: string, mode: U32, uid: Option<U32>, gid: Option<U32>)
    | MustExist(path: string, kind: Kind)

  datatype Reason =
    | FieldCount(got: nat)
    | EmptyPath
    | BadPath(error: Expand.ExpandError)
    | NotOctal(field: string)
    | NotAnId(field: string)
    | UnknownKind(field: string)
    | UnknownStep(field: string)

  datatype ParseError = ParseError(lineNumber: nat, reason: Reason)

  // ---- Text ----

  /** str::split by one character. */
  function Split(s: string, separator: char): (fields: seq<string>)
    ensures fields != []
  {
    var n := Expand.FindAny(s, {separator});
    if n == |s| then [s] else [s[..n]] + Split(s[n + 1..], separator)
  }

  /** str::lines, but for the carriage returns, which the caller drops anyway. */
  function Lines(s: string): seq<string> {
    if s == "" then []
    else
      var n := Expand.FindAny(s, {'\n'});
      if n == |s| then [s] else [s[..n]] + Lines(s[n + 1..])
  }

  /** trim_end_matches(['\r']) */
  function Trimmed(line: string): string {
    if line != "" && line[|line| - 1] == '\r' then Trimmed(line[..|line| - 1]) else line
  }

  // ---- Numbers ----

  predicate IsDigit(c: char, radix: nat)
    requires 2 <= radix <= 10
  {
    '0' <= c && c as int < '0' as int + radix
  }

  predicate AllDigits(s: string, radix: nat)
    requires 2 <= radix <= 10
  {
    forall i | 0 <= i < |s| :: IsDigit(s[i], radix)
  }

  function Worth(s: string, radix: nat): nat
    requires 2 <= radix <= 10 && AllDigits(s, radix)
  {
    if s == "" then 0
    else radix * Worth(s[..|s| - 1], radix) + (s[|s| - 1] as int - '0' as int)
  }

  /** u32::from_str_radix: an optional plus sign, at least one digit, no overflow. */
  function FromStrRadix(s: string, radix: nat): Option<U32>
    requires 2 <= radix <= 10
  {
    var digits := if "+" <= s then s[1..] else s;
    if digits == "" || !AllDigits(digits, radix) then None
    else if Worth(digits, radix) < 0x1_0000_0000 then Some(Worth(digits, radix)) else None
  }

  // ---- One line ----

  function ParseId(field: string): Result<Option<U32>, Reason> {
    if field == "-" then Ok(None)
    else
      match FromStrRadix(field, 10)
      case None => Err(NotAnId(field))
      case Some(n) => Ok(Some(n))
  }

  function ParsePath(u: Expand.Unicode, lookup: Expand.Lookup, field: string): Result<string, Reason> {
    if field == "" then Err(EmptyPath)
    else
      match Expand.Expansion(u, field, lookup)
      case Err(e) => Err(BadPath(e))
      case Ok(path) => Ok(path)
  }

  function ParseMode(field: string): Result<U32, Reason> {
    match FromStrRadix(field, 8)
    case None => Err(NotOctal(field))
    case Some(n) => Ok(n)
  }

  function ParseKind(field: string): Result<Kind, Reason> {
    if field == "any" then Ok(Any)
    else if field == "dir" then Ok(Directory)
    else if field == "file" then Ok(File)
    else Err(UnknownKind(field))
  }

  function DirOf(u: Expand.Unicode, lookup: Expand.Lookup, path: string, mode: string, uid: string, gid: string)
    : Result<Step, Reason>
  {
    var p :- ParsePath(u, lookup, path);
    var m :- ParseMode(mode);
    var owner :- ParseId(uid);
    var group :- ParseId(gid);
    Ok(Dir(p, m, owner, group))
  }

  function MustExistOf(u: Expand.Unicode, lookup: Expand.Lookup, path: string, kind: string): Result<Step, Reason> {
    var p :- ParsePath(u, lookup, path);
    var k :- ParseKind(kind);
    Ok(MustExist(p, k))
  }

  function StepOf(u: Expand.Unicode, lookup: Expand.Lookup, fields: seq<string>): Result<Step, Reason>
    requires fields != []
  {
    if fields[0] == "dir" then
      if |fields| != 5 then Err(FieldCount(|fields| - 1))
      else DirOf(u, lookup, fields[1], fields[2], fields[3], fields[4])
    else if fields[0] == "must-exist" then
      if |fields| != 3 then Err(FieldCount(|fields| - 1))
      else MustExistOf(u, lookup, fields[1], fields[2])
    else Err(UnknownStep(fields[0]))
  }

  predicate Skipped(line: string) { line == "" || line[0] == '#' }

  // ---- The whole text ----

  function StepsFrom(u: Expand.Unicode, lookup: Expand.Lookup, lines: seq<string>, before: nat)
    : Result<seq<Step>, ParseError>
  {
    if lines == [] then Ok([])
    else if Skipped(Trimmed(lines[0])) then StepsFrom(u, lookup, lines[1..], before + 1)
    else
      match StepOf(u, lookup, Split(Trimmed(lines[0]), '\t'))
      case Err(reason) => Err(ParseError(before + 1, reason))
      case Ok(step) =>
        var steps :- StepsFrom(u, lookup, lines[1..], before + 1);
        Ok([step] + steps)
  }

  function Parse(u: Expand.Unicode, lookup: Expand.Lookup, input: string): Result<seq<Step>, ParseError> {
    StepsFrom(u, lookup, Lines(input), 0)
  }

  function After(steps: seq<Step>, rest: Result<seq<Step>, ParseError>): Result<seq<Step>, ParseError> {
    if rest.Ok? then Ok(steps + rest.value) else rest
  }

  lemma StepsFromStep(u: Expand.Unicode, lookup: Expand.Lookup, lines: seq<string>, i: nat, steps: seq<Step>)
    requires i < |lines|
    ensures
      var line := Trimmed(lines[i]);
      After(steps, StepsFrom(u, lookup, lines[i..], i)) ==
      if Skipped(line) then After(steps, StepsFrom(u, lookup, lines[i + 1..], i + 1))
      else
        match StepOf(u, lookup, Split(line, '\t'))
        case Err(reason) => Err(ParseError(i + 1, reason))
        case Ok(step) => After(steps + [step], StepsFrom(u, lookup, lines[i + 1..], i + 1))
  {
    hide StepOf, Skipped, Trimmed, Split;
    assert lines[i..][1..] == lines[i + 1..] && lines[i..][0] == lines[i];
    var line := Trimmed(lines[i]);
    var rest := StepsFrom(u, lookup, lines[i + 1..], i + 1);
    if !Skipped(line) {
      var here := StepOf(u, lookup, Split(line, '\t'));
      if here.Ok? && rest.Ok? {
        assert (steps + [here.value]) + rest.value == steps + ([here.value] + rest.value);
      }
    }
  }

  /** parse_with */
  method ParseWith(u: Expand.Unicode, lookup: Expand.Lookup, input: string)
    returns (r: Result<seq<Step>, ParseError>)
    ensures r == Parse(u, lookup, input)
  {
    hide StepsFrom, Skipped, Expand.Expansion, FromStrRadix;
    var steps: seq<Step> := [];
    var lines := Lines(input);
    assert lines[0..] == lines;
    NothingBefore(StepsFrom(u, lookup, lines, 0));
    for index := 0 to |lines|
      invariant Parse(u, lookup, input) == After(steps, StepsFrom(u, lookup, lines[index..], index))
    {
      StepsFromStep(u, lookup, lines, index, steps);
      hide After;
      var lineNumber := index + 1;
      var line := Trimmed(lines[index]);
      if Skipped(line) {
        continue;
      }
      var fields := Split(line, '\t');
      if fields[0] == "dir" {
        if |fields| != 5 {
          return Err(ParseError(lineNumber, FieldCount(|fields| - 1)));
        }
        if fields[1] == "" {
          return Err(ParseError(lineNumber, EmptyPath));
        }
        var path := Expand.Expand(u, fields[1], lookup);
        if path.Err? {
          return Err(ParseError(lineNumber, BadPath(path.error)));
        }
        var mode := FromStrRadix(fields[2], 8);
        if mode.None? {
          return Err(ParseError(lineNumber, NotOctal(fields[2])));
        }
        var uid := ParseId(fields[3]);
        if uid.Err? {
          return Err(ParseError(lineNumber, uid.error));
        }
        var gid := ParseId(fields[4]);
        if gid.Err? {
          return Err(ParseError(lineNumber, gid.error));
        }
        steps := steps + [Dir(path.value, mode.value, uid.value, gid.value)];
      } else if fields[0] == "must-exist" {
        if |fields| != 3 {
          return Err(ParseError(lineNumber, FieldCount(|fields| - 1)));
        }
        if fields[1] == "" {
          return Err(ParseError(lineNumber, EmptyPath));
        }
        var path := Expand.Expand(u, fields[1], lookup);
        if path.Err? {
          return Err(ParseError(lineNumber, BadPath(path.error)));
        }
        var kind := ParseKind(fields[2]);
        if kind.Err? {
          return Err(ParseError(lineNumber, kind.error));
        }
        steps := steps + [MustExist(path.value, kind.value)];
      } else {
        return Err(ParseError(lineNumber, UnknownStep(fields[0])));
      }
    }
    assert lines[|lines|..] == [];
    NothingAfter(u, lookup, steps, |lines|);
    return Ok(steps);
  }

  lemma NothingBefore(rest: Result<seq<Step>, ParseError>)
    ensures After([], rest) == rest
  {
    assert rest.Ok? ==> [] + rest.value == rest.value;
  }

  lemma NothingAfter(u: Expand.Unicode, lookup: Expand.Lookup, steps: seq<Step>, before: nat)
    ensures After(steps, StepsFrom(u, lookup, [], before)) == Ok(steps)
  {
    assert steps + [] == steps;
  }
}
